/** The in-process, fixed-window rate limiter of src/utils/RateLimiter.ts.

The limiter is a JavaScript `Map` of buckets that never holds more than `maxBuckets` keys. A `Map`
remembers insertion order, re-setting a key keeps its place, and eviction follows that order, so the
order is part of the state here. The class is proved against the specification function `Consumed`;
the lemmas below relate that function to an unbounded per-key limiter and to sliding time intervals. */
module RateLimiting {
  import opened Wrappers

  datatype Bucket = Bucket(startedAt: int, count: int)

  datatype Limits = Limits(maxAttempts: int, windowMs: int, maxBuckets: int)

  datatype Answer = Answer(allowed: bool, remaining: int, retryAfterSeconds: int)

  /** A `Map<string, Bucket>`: the keys in insertion order, and their buckets. */
  datatype Buckets = Buckets(order: seq<string>, table: map<string, Bucket>)

  const NO_BUCKETS := Buckets([], map[])

  ghost predicate NoRepeats(s: seq<string>) {
    forall i, j :: 0 <= i < j < |s| ==> s[i] != s[j]
  }

  ghost predicate WellFormed(m: Buckets) {
    && NoRepeats(m.order)
    && (forall k :: k in m.order <==> k in m.table)
    && "" !in m.table
  }

  predicate Expired(cfg: Limits, b: Bucket, now: int) {
    now - b.startedAt >= cfg.windowMs
  }

  function Max(a: int, b: int): int {
    if a >= b then a else b
  }

  /** `Math.ceil(ms / 1000)`; Dafny's division rounds down for a positive divisor. */
  function CeilSeconds(ms: int): int {
    -((-ms) / 1000)
  }

  /** `key || 'unknown'` */
  function Normalize(key: string): string {
    if key == "" then "unknown" else key
  }

  // ---------------------------------------------------------------------------------------------
  // Specification of one call
  // ---------------------------------------------------------------------------------------------

  function Without(s: seq<string>, key: string): seq<string> {
    if s == [] then [] else if s[0] == key then s[1..] else [s[0]] + Without(s[1..], key)
  }

  function Delete(m: Buckets, key: string): Buckets {
    Buckets(Without(m.order, key), m.table - {key})
  }

  function Put(m: Buckets, key: string, b: Bucket): Buckets {
    Buckets(if key in m.table then m.order else m.order + [key], m.table[key := b])
  }

  function DropExpired(cfg: Limits, m: Buckets, todo: seq<string>, now: int): Buckets
    decreases |todo|
  {
    if todo == [] then m
    else if todo[0] in m.table && Expired(cfg, m.table[todo[0]], now) then
      DropExpired(cfg, Delete(m, todo[0]), todo[1..], now)
    else DropExpired(cfg, m, todo[1..], now)
  }

  function DropOldest(cfg: Limits, m: Buckets): Buckets
    decreases |m.order|
  {
    if |m.order| > cfg.maxBuckets && m.order != [] && m.order[0] != "" then
      DropOldest(cfg, Delete(m, m.order[0]))
    else m
  }

  function Evict(cfg: Limits, m: Buckets, now: int): Buckets {
    if |m.order| <= cfg.maxBuckets then m
    else DropOldest(cfg, DropExpired(cfg, m, m.order, now))
  }

  /** What a key's bucket, if any, answers, and the bucket it leaves behind. */
  function Hit(cfg: Limits, b: Option<Bucket>, now: int): (Bucket, Answer) {
    if b.None? || Expired(cfg, b.value, now) then
      (Bucket(now, 1), Answer(true, Max(0, cfg.maxAttempts - 1), 0))
    else
      var count := b.value.count + 1;
      var retry := Max(1, CeilSeconds(cfg.windowMs - (now - b.value.startedAt)));
      var allowed := count <= cfg.maxAttempts;
      (Bucket(b.value.startedAt, count),
       Answer(allowed, Max(0, cfg.maxAttempts - count), if allowed then 0 else retry))
  }

  function Find(table: map<string, Bucket>, key: string): Option<Bucket> {
    if key in table then Some(table[key]) else None
  }

  function Consumed(cfg: Limits, m: Buckets, key: string, now: int): (Buckets, Answer) {
    var k := Normalize(key);
    var current := Find(m.table, k);
    var (b, a) := Hit(cfg, current, now);
    (if current.None? || Expired(cfg, current.value, now) then Evict(cfg, Put(m, k, b), now) else Put(m, k, b), a)
  }

  // ---------------------------------------------------------------------------------------------
  // The class
  // ---------------------------------------------------------------------------------------------

  class RateLimiter {
    var order: seq<string>
    var buckets: map<string, Bucket>
    const limits: Limits

    constructor (maxAttempts: int, windowMs: int, maxBuckets: int)
      ensures limits == Limits(maxAttempts, windowMs, maxBuckets)
      ensures State() == NO_BUCKETS && WellFormed(State())
    {
      order, buckets := [], map[];
      limits := Limits(maxAttempts, windowMs, maxBuckets);
    }

    ghost function State(): Buckets
      reads this
    {
      Buckets(order, buckets)
    }

    method Consume(key: string, now: int) returns (answer: Answer)
      requires WellFormed(State())
      modifies this
      ensures WellFormed(State())
      ensures (State(), answer) == Consumed(limits, old(State()), key, now)
    {
      ConsumeKeepsWellFormed(limits, State(), key, now);
      var normalizedKey := Normalize(key);
      if normalizedKey !in buckets || now - buckets[normalizedKey].startedAt >= limits.windowMs {
        if normalizedKey !in buckets {
          order := order + [normalizedKey];
        }
        buckets := buckets[normalizedKey := Bucket(now, 1)];
        EvictIfNeeded(now);
        return Answer(true, Max(0, limits.maxAttempts - 1), 0);
      }
      var startedAt, count := buckets[normalizedKey].startedAt, buckets[normalizedKey].count + 1;
      buckets := buckets[normalizedKey := Bucket(startedAt, count)];
      var retryAfterSeconds := Max(1, CeilSeconds(limits.windowMs - (now - startedAt)));
      var allowed := count <= limits.maxAttempts;
      answer := Answer(allowed, Max(0, limits.maxAttempts - count), if allowed then 0 else retryAfterSeconds);
    }

    method Reset(key: string)
      requires WellFormed(State())
      modifies this
      ensures WellFormed(State())
      ensures State() == Delete(old(State()), key)
    {
      DeleteKeepsWellFormed(State(), key);
      order, buckets := Without(order, key), buckets - {key};
    }

    method EvictIfNeeded(now: int)
      modifies this
      ensures State() == Evict(limits, old(State()), now)
    {
      if |order| <= limits.maxBuckets {
        return;
      }
      var visit := order;
      ghost var target := DropExpired(limits, State(), visit, now);
      for i := 0 to |visit|
        invariant DropExpired(limits, State(), visit[i..], now) == target
      {
        var key := visit[i];
        assert visit[i..][1..] == visit[i + 1..];
        if key in buckets && now - buckets[key].startedAt >= limits.windowMs {
          order, buckets := Without(order, key), buckets - {key};
        }
      }
      ghost var result := DropOldest(limits, State());
      while |order| > limits.maxBuckets
        invariant DropOldest(limits, State()) == result
        decreases |order|
      {
        if order == [] || order[0] == "" {
          break;
        }
        order, buckets := Without(order, order[0]), buckets - {order[0]};
      }
    }
  }

  // ---------------------------------------------------------------------------------------------
  // Eviction
  // ---------------------------------------------------------------------------------------------

  lemma WithoutMembers(s: seq<string>, key: string)
    requires NoRepeats(s)
    ensures var t := Without(s, key);
            && NoRepeats(t)
            && (forall k :: k in t <==> k in s && k != key)
            && |t| == |s| - (if key in s then 1 else 0)
  {
    if s != [] {
      assert s == [s[0]] + s[1..];
      if s[0] != key {
        WithoutMembers(s[1..], key);
        var t := Without(s[1..], key);
        assert s[0] !in t;
        assert forall i :: 0 <= i < |t| ==> t[i] in t;
      }
    }
  }

  lemma DeleteKeepsWellFormed(m: Buckets, key: string)
    requires WellFormed(m)
    ensures WellFormed(Delete(m, key))
    ensures |Delete(m, key).order| == |m.order| - (if key in m.table then 1 else 0)
  {
    WithoutMembers(m.order, key);
  }

  /** Dropping the expired buckets removes every expired bucket among `todo` and nothing else. */
  lemma {:induction false} DropExpiredMeaning(cfg: Limits, m: Buckets, todo: seq<string>, now: int)
    requires WellFormed(m)
    ensures var d := DropExpired(cfg, m, todo, now);
            && WellFormed(d)
            && |d.order| <= |m.order|
            && (forall k :: k in d.table <==> k in m.table && !(k in todo && Expired(cfg, m.table[k], now)))
            && (forall k :: k in d.table ==> d.table[k] == m.table[k])
            && ((forall k :: k in m.table && k in todo ==> !Expired(cfg, m.table[k], now)) ==> d == m)
            && (d != m ==> |d.order| < |m.order|)
    decreases |todo|
  {
    if todo != [] {
      DeleteKeepsWellFormed(m, todo[0]);
      if todo[0] in m.table && Expired(cfg, m.table[todo[0]], now) {
        DropExpiredMeaning(cfg, Delete(m, todo[0]), todo[1..], now);
      } else {
        DropExpiredMeaning(cfg, m, todo[1..], now);
      }
      assert forall k :: k in todo <==> k == todo[0] || k in todo[1..];
    }
  }

  /** When one bucket too many is held, the oldest insertion goes, and only that one. */
  lemma DropOldestMeaning(cfg: Limits, m: Buckets)
    requires WellFormed(m) && 0 <= cfg.maxBuckets && |m.order| <= cfg.maxBuckets + 1
    ensures DropOldest(cfg, m) == if |m.order| <= cfg.maxBuckets then m else Delete(m, m.order[0])
    ensures WellFormed(DropOldest(cfg, m)) && |DropOldest(cfg, m).order| <= cfg.maxBuckets
  {
    if |m.order| > cfg.maxBuckets {
      assert m.order[0] in m.table;
      DeleteKeepsWellFormed(m, m.order[0]);
    }
  }

  lemma EvictKeepsWellFormed(cfg: Limits, m: Buckets, now: int)
    requires WellFormed(m)
    ensures WellFormed(Evict(cfg, m, now))
  {
    DropExpiredMeaning(cfg, m, m.order, now);
    DropOldestKeepsWellFormed(cfg, DropExpired(cfg, m, m.order, now));
  }

  lemma {:induction false} DropOldestKeepsWellFormed(cfg: Limits, m: Buckets)
    requires WellFormed(m)
    ensures WellFormed(DropOldest(cfg, m))
    decreases |m.order|
  {
    if |m.order| > cfg.maxBuckets && m.order != [] {
      DeleteKeepsWellFormed(m, m.order[0]);
      assert m.order[0] in m.table;
      DropOldestKeepsWellFormed(cfg, Delete(m, m.order[0]));
    }
  }

  lemma ConsumeKeepsWellFormed(cfg: Limits, m: Buckets, key: string, now: int)
    requires WellFormed(m)
    ensures WellFormed(Consumed(cfg, m, key, now).0)
  {
    var k := Normalize(key);
    var (b, _) := Hit(cfg, Find(m.table, k), now);
    PutKeepsWellFormed(m, k, b);
    EvictKeepsWellFormed(cfg, Put(m, k, b), now);
  }

  lemma PutKeepsWellFormed(m: Buckets, k: string, b: Bucket)
    requires WellFormed(m) && k != ""
    ensures WellFormed(Put(m, k, b))
    ensures |Put(m, k, b).order| == |m.order| + (if k in m.table then 0 else 1)
  {
    var p := Put(m, k, b);
    assert forall q :: q in p.order <==> q in m.order || q == k;
  }

  /** Eviction from a table with at most one key too many: buckets that stay are unchanged, and one that is not
      expired goes only when no bucket is expired, one key is too many, and it is the oldest insertion. */
  lemma EvictEffect(cfg: Limits, p: Buckets, now: int)
    requires WellFormed(p) && 1 <= cfg.maxBuckets && |p.order| <= cfg.maxBuckets + 1
    ensures var e := Evict(cfg, p, now);
            && WellFormed(e) && |e.order| <= cfg.maxBuckets
            && (forall q :: q in e.table ==> q in p.table && e.table[q] == p.table[q])
            && (forall q :: q in p.table && q !in e.table && !Expired(cfg, p.table[q], now) ==>
                  && |p.order| == cfg.maxBuckets + 1 && q == p.order[0]
                  && (forall r :: r in p.table ==> !Expired(cfg, p.table[r], now)))
  {
    if |p.order| > cfg.maxBuckets {
      DropExpiredMeaning(cfg, p, p.order, now);
      var d := DropExpired(cfg, p, p.order, now);
      DropOldestMeaning(cfg, d);
      if d == p {
        forall q | q in p.table ensures !Expired(cfg, p.table[q], now) {
          assert q in p.order && q in d.table;
        }
      }
    }
  }

  /** Everything one call does to the table. The size bound holds after every call. The consumed key's
      bucket is the one `Hit` leaves, and it survives eviction. Other keys keep their buckets, except
      that expired ones may go, and that an unexpired one goes only when the table is full of unexpired
      buckets and it is the oldest insertion. */
  lemma ConsumeEffect(cfg: Limits, m: Buckets, key: string, now: int)
    requires WellFormed(m) && 1 <= cfg.maxBuckets && 0 < cfg.windowMs && |m.order| <= cfg.maxBuckets
    ensures var k := Normalize(key);
            var m' := Consumed(cfg, m, key, now).0;
            && WellFormed(m') && |m'.order| <= cfg.maxBuckets
            && k in m'.table && m'.table[k] == Hit(cfg, Find(m.table, k), now).0
            && (forall q :: q in m'.table && q != k ==> q in m.table && m'.table[q] == m.table[q])
            && (forall q :: q in m.table && q !in m'.table && !Expired(cfg, m.table[q], now) ==>
                  && |m.order| == cfg.maxBuckets && k !in m.table && q == m.order[0]
                  && (forall p :: p in m.table ==> !Expired(cfg, m.table[p], now)))
  {
    var k := Normalize(key);
    var (b, _) := Hit(cfg, Find(m.table, k), now);
    var p := Put(m, k, b);
    PutKeepsWellFormed(m, k, b);
    EvictEffect(cfg, p, now);
    assert |p.order| == cfg.maxBuckets + 1 ==> p.order[0] == m.order[0] && p.order[0] != k by {
      if k !in m.table { assert p.order[|m.order|] == k; }
    }
  }

  /** Exactly which keys one call leaves. Only a new key at a full table evicts: the expired ones all go, and if there
      is none, one key does, the first in the order. */
  lemma KeptExactly(cfg: Limits, m: Buckets, key: string, now: int)
    requires WellFormed(m) && 1 <= cfg.maxBuckets && 0 < cfg.windowMs && |m.order| <= cfg.maxBuckets
    ensures var k := Normalize(key);
            var kept := Consumed(cfg, m, key, now).0.table.Keys;
            if k in m.table || |m.order| < cfg.maxBuckets then kept == m.table.Keys + {k}
            else if SomeExpired(cfg, m, now) then
              forall q :: q in kept <==> q == k || (q in m.table && !Expired(cfg, m.table[q], now))
            else kept == m.table.Keys - {m.order[0]} + {k}
  {
    var k := Normalize(key);
    var b := Hit(cfg, Find(m.table, k), now).0;
    var p := Put(m, k, b);
    PutKeepsWellFormed(m, k, b);
    if k !in m.table && |m.order| == cfg.maxBuckets {
      DropExpiredMeaning(cfg, p, p.order, now);
      DropOldestMeaning(cfg, DropExpired(cfg, p, p.order, now));
      NewKeyEvicts(cfg, m, k, now, p);
    }
  }

  ghost predicate SomeExpired(cfg: Limits, m: Buckets, now: int) {
    exists q :: q in m.table && Expired(cfg, m.table[q], now)
  }

  lemma NewKeyEvicts(cfg: Limits, m: Buckets, k: string, now: int, p: Buckets)
    requires WellFormed(m) && WellFormed(p) && 1 <= cfg.maxBuckets == |m.order| && 0 < cfg.windowMs && k !in m.table
    requires p == Buckets(m.order + [k], m.table[k := Bucket(now, 1)])
    ensures var d := DropExpired(cfg, p, p.order, now);
            if SomeExpired(cfg, m, now) then
              && |d.order| <= cfg.maxBuckets
              && forall q :: q in d.table <==> q == k || (q in m.table && !Expired(cfg, m.table[q], now))
            else d == p
  {
    DropExpiredMeaning(cfg, p, p.order, now);
    assert forall q :: q in p.table ==> q in p.order;
    var d := DropExpired(cfg, p, p.order, now);
    if SomeExpired(cfg, m, now) {
      var q :| q in m.table && Expired(cfg, m.table[q], now);
      assert q in p.table && q !in d.table;
    }
  }

  // ---------------------------------------------------------------------------------------------
  // The order is insertion order
  // ---------------------------------------------------------------------------------------------

  ghost predicate Before(s: seq<string>, p: string, q: string) {
    exists i, j :: 0 <= i < j < |s| && s[i] == p && s[j] == q
  }

  lemma BeforeCons(x: string, s: seq<string>, p: string, q: string)
    ensures Before([x] + s, p, q) <==> (p == x && q in s) || Before(s, p, q)
  {
    var t := [x] + s;
    if Before(t, p, q) {
      var i, j :| 0 <= i < j < |t| && t[i] == p && t[j] == q;
      assert t[j] == s[j - 1];
      if i > 0 { assert t[i] == s[i - 1]; }
    }
    if p == x && q in s {
      var j :| 0 <= j < |s| && s[j] == q;
      assert t[0] == p && t[j + 1] == q;
    }
    if Before(s, p, q) {
      var i, j :| 0 <= i < j < |s| && s[i] == p && s[j] == q;
      assert t[i + 1] == p && t[j + 1] == q;
    }
  }

  lemma BeforeAppend(s: seq<string>, k: string, p: string, q: string)
    ensures Before(s + [k], p, q) <==> Before(s, p, q) || (p in s && q == k)
  {
    var t := s + [k];
    if Before(s, p, q) {
      var i, j :| 0 <= i < j < |s| && s[i] == p && s[j] == q;
      assert t[i] == p && t[j] == q;
    }
    if p in s && q == k {
      var i :| 0 <= i < |s| && s[i] == p;
      assert t[i] == p && t[|s|] == q;
    }
    if Before(t, p, q) {
      var i, j :| 0 <= i < j < |t| && t[i] == p && t[j] == q;
      assert t[i] == s[i];
    }
  }

  lemma BeforeIsListed(s: seq<string>, p: string, q: string)
    requires Before(s, p, q)
    ensures p in s && q in s
  {
  }

  /** `t` lists some of `s`, in the same order. */
  ghost predicate Thinned(s: seq<string>, t: seq<string>) {
    forall p, q :: Before(t, p, q) <==> Before(s, p, q) && p in t && q in t
  }

  lemma {:induction false} WithoutThins(s: seq<string>, key: string)
    requires NoRepeats(s)
    ensures Thinned(s, Without(s, key))
  {
    if s != [] {
      var (x, tail) := (s[0], s[1..]);
      assert s == [x] + tail;
      WithoutMembers(s, key);
      WithoutMembers(tail, key);
      WithoutThins(tail, key);
      forall p, q
        ensures Before(Without(s, key), p, q) <==> Before(s, p, q) && p in Without(s, key) && q in Without(s, key)
      {
        BeforeCons(x, tail, p, q);
        BeforeCons(x, Without(tail, key), p, q);
        if Before(tail, p, q) { BeforeIsListed(tail, p, q); }
      }
    }
  }

  lemma ThinnedTwice(a: seq<string>, b: seq<string>, c: seq<string>)
    requires Thinned(a, b) && Thinned(b, c) && forall k :: k in c ==> k in b
    ensures Thinned(a, c)
  {
    forall p, q ensures Before(c, p, q) <==> Before(a, p, q) && p in c && q in c {
      assert Before(c, p, q) <==> Before(b, p, q) && p in c && q in c;
      assert Before(b, p, q) <==> Before(a, p, q) && p in b && q in b;
    }
  }

  lemma ThinnedItself(s: seq<string>)
    ensures Thinned(s, s)
  {
    forall p, q | Before(s, p, q) ensures p in s && q in s { BeforeIsListed(s, p, q); }
  }

  lemma {:induction false} DropExpiredThins(cfg: Limits, m: Buckets, todo: seq<string>, now: int)
    requires WellFormed(m)
    ensures Thinned(m.order, DropExpired(cfg, m, todo, now).order)
    decreases |todo|
  {
    if todo == [] {
      ThinnedItself(m.order);
    } else if todo[0] in m.table && Expired(cfg, m.table[todo[0]], now) {
      var d := Delete(m, todo[0]);
      DeleteKeepsWellFormed(m, todo[0]);
      WithoutThins(m.order, todo[0]);
      DropExpiredThins(cfg, d, todo[1..], now);
      DropExpiredMeaning(cfg, d, todo[1..], now);
      ThinnedTwice(m.order, d.order, DropExpired(cfg, d, todo[1..], now).order);
    } else {
      DropExpiredThins(cfg, m, todo[1..], now);
    }
  }

  lemma {:induction false} DropOldestThins(cfg: Limits, m: Buckets)
    requires WellFormed(m)
    ensures Thinned(m.order, DropOldest(cfg, m).order) && forall k :: k in DropOldest(cfg, m).order ==> k in m.order
    decreases |m.order|
  {
    if |m.order| > cfg.maxBuckets && m.order != [] && m.order[0] != "" {
      var d := Delete(m, m.order[0]);
      DeleteKeepsWellFormed(m, m.order[0]);
      WithoutMembers(m.order, m.order[0]);
      WithoutThins(m.order, m.order[0]);
      DropOldestThins(cfg, d);
      ThinnedTwice(m.order, d.order, DropOldest(cfg, d).order);
    } else {
      ThinnedItself(m.order);
    }
  }

  lemma EvictThins(cfg: Limits, m: Buckets, now: int)
    requires WellFormed(m)
    ensures Thinned(m.order, Evict(cfg, m, now).order) && forall k :: k in Evict(cfg, m, now).order ==> k in m.order
  {
    ThinnedItself(m.order);
    if |m.order| > cfg.maxBuckets {
      var d := DropExpired(cfg, m, m.order, now);
      DropExpiredThins(cfg, m, m.order, now);
      DropExpiredMeaning(cfg, m, m.order, now);
      DropOldestThins(cfg, d);
      ThinnedTwice(m.order, d.order, DropOldest(cfg, d).order);
    }
  }

  /** Keys held before and after keep their places, and a key new to the table stands behind all of them. */
  ghost predicate KeepsOrder(m: Buckets, m': Buckets) {
    forall p, q :: p in m'.table && q in m'.table ==>
      (Before(m'.order, p, q) <==> p in m.table && if q in m.table then Before(m.order, p, q) else true)
  }

  lemma ConsumeKeepsOrder(cfg: Limits, m: Buckets, key: string, now: int)
    requires WellFormed(m)
    ensures KeepsOrder(m, Consumed(cfg, m, key, now).0)
  {
    var k := Normalize(key);
    var p := Put(m, k, Hit(cfg, Find(m.table, k), now).0);
    var m' := Consumed(cfg, m, key, now).0;
    PutKeepsWellFormed(m, k, Hit(cfg, Find(m.table, k), now).0);
    ConsumeKeepsWellFormed(cfg, m, key, now);
    ThinnedItself(p.order);
    EvictThins(cfg, p, now);
    assert Thinned(p.order, m'.order);
    forall a, b | a in m'.table && b in m'.table
      ensures Before(m'.order, a, b) <==> a in m.table && if b in m.table then Before(m.order, a, b) else true
    {
      assert a in m'.order && b in m'.order;
      BeforeAppend(m.order, k, a, b);
      if Before(m.order, a, b) { BeforeIsListed(m.order, a, b); }
    }
  }

  lemma ResetKeepsOrder(m: Buckets, key: string)
    requires WellFormed(m)
    ensures KeepsOrder(m, Delete(m, key))
  {
    DeleteKeepsWellFormed(m, key);
    WithoutThins(m.order, key);
    forall a, b | a in Delete(m, key).table && b in Delete(m, key).table
      ensures Before(Delete(m, key).order, a, b) <==> Before(m.order, a, b)
    {
      assert a in Delete(m, key).order && b in Delete(m, key).order;
    }
  }

  /** The limiter after the first `n` calls of a run. */
  function Held(cfg: Limits, calls: seq<Call>, n: nat): Buckets
    requires n <= |calls|
  {
    if n == 0 then NO_BUCKETS else Step(cfg, Held(cfg, calls, n - 1), calls[n - 1])
  }

  /** The number of the last of the first `n` calls that found the key absent and left it held. */
  function Stamp(cfg: Limits, calls: seq<Call>, n: nat, key: string): int
    requires n <= |calls|
  {
    if n == 0 then -1
    else if key !in Held(cfg, calls, n - 1).table && key in Held(cfg, calls, n).table then n - 1
    else Stamp(cfg, calls, n - 1, key)
  }

  lemma {:induction false} StampIsEarlier(cfg: Limits, calls: seq<Call>, n: nat, key: string)
    requires n <= |calls|
    ensures Stamp(cfg, calls, n, key) < n
  {
    if n > 0 {
      StampIsEarlier(cfg, calls, n - 1, key);
    }
  }

  lemma StepIsOrderly(cfg: Limits, m: Buckets, c: Call)
    requires WellFormed(m)
    ensures WellFormed(Step(cfg, m, c)) && KeepsOrder(m, Step(cfg, m, c))
    ensures var m' := Step(cfg, m, c);
            forall p, q :: p in m'.table && q in m'.table && p !in m.table && q !in m.table ==> p == q
  {
    match c
    case Consumption(key, now) =>
      ConsumeKeepsWellFormed(cfg, m, key, now);
      ConsumeKeepsOrder(cfg, m, key, now);
      NothingElseIsNew(cfg, m, key, now);
    case Reset(key) =>
      DeleteKeepsWellFormed(m, key);
      ResetKeepsOrder(m, key);
  }

  lemma NothingElseIsNew(cfg: Limits, m: Buckets, key: string, now: int)
    requires WellFormed(m)
    ensures forall q :: q in Consumed(cfg, m, key, now).0.table ==> q in m.table || q == Normalize(key)
  {
    var k := Normalize(key);
    var p := Put(m, k, Hit(cfg, Find(m.table, k), now).0);
    PutKeepsWellFormed(m, k, Hit(cfg, Find(m.table, k), now).0);
    ConsumeKeepsWellFormed(cfg, m, key, now);
    EvictThins(cfg, p, now);
    forall q | q in Consumed(cfg, m, key, now).0.table ensures q in p.table {
      assert q in Consumed(cfg, m, key, now).0.order;
    }
  }

  /** Over every run of consumptions and resets of a new limiter: one key stands before another exactly if it was
      inserted earlier, counting from the last time it was absent. */
  lemma {:induction false} OrderIsInsertionOrder(cfg: Limits, calls: seq<Call>, n: nat)
    requires n <= |calls|
    ensures WellFormed(Held(cfg, calls, n))
    ensures forall p, q :: p in Held(cfg, calls, n).table && q in Held(cfg, calls, n).table ==>
              (Before(Held(cfg, calls, n).order, p, q) <==> Stamp(cfg, calls, n, p) < Stamp(cfg, calls, n, q))
  {
    if n > 0 {
      var (m, m') := (Held(cfg, calls, n - 1), Held(cfg, calls, n));
      OrderIsInsertionOrder(cfg, calls, n - 1);
      StepIsOrderly(cfg, m, calls[n - 1]);
      forall p, q | p in m'.table && q in m'.table
        ensures Before(m'.order, p, q) <==> Stamp(cfg, calls, n, p) < Stamp(cfg, calls, n, q)
      {
        StampIsEarlier(cfg, calls, n - 1, p);
        StampIsEarlier(cfg, calls, n - 1, q);
      }
    }
  }

  lemma {:induction false} HeldIsWithinCap(cfg: Limits, calls: seq<Call>, n: nat)
    requires n <= |calls| && 1 <= cfg.maxBuckets && 0 < cfg.windowMs
    ensures WellFormed(Held(cfg, calls, n)) && |Held(cfg, calls, n).order| <= cfg.maxBuckets
  {
    if n > 0 {
      HeldIsWithinCap(cfg, calls, n - 1);
      match calls[n - 1]
      case Consumption(key, now) => ConsumeEffect(cfg, Held(cfg, calls, n - 1), key, now);
      case Reset(key) => DeleteKeepsWellFormed(Held(cfg, calls, n - 1), key);
    }
  }

  /** An unexpired bucket that a call drops is that of the key inserted first. */
  lemma FirstInsertedGoes(cfg: Limits, calls: seq<Call>, n: nat, key: string, now: int, q: string, r: string)
    requires n < |calls| && 1 <= cfg.maxBuckets && 0 < cfg.windowMs && calls[n] == Consumption(key, now)
    requires var m := Held(cfg, calls, n);
             && q in m.table && !Expired(cfg, m.table[q], now) && q !in Held(cfg, calls, n + 1).table
             && r in m.table && r != q
    ensures Stamp(cfg, calls, n, q) < Stamp(cfg, calls, n, r)
  {
    var m := Held(cfg, calls, n);
    HeldIsWithinCap(cfg, calls, n);
    OrderIsInsertionOrder(cfg, calls, n);
    ConsumeEffect(cfg, m, key, now);
    assert q == m.order[0] && r in m.order;
    var j :| 0 <= j < |m.order| && m.order[j] == r;
    assert Before(m.order, q, r);
  }

  // ---------------------------------------------------------------------------------------------
  // The capped limiter refines an unbounded one
  // ---------------------------------------------------------------------------------------------

  datatype Call = Consumption(key: string, now: int) | Reset(key: string)

  /** The simple limiter: one bucket per key, never evicted. */
  function FreeConsume(cfg: Limits, u: map<string, Bucket>, key: string, now: int): (map<string, Bucket>, Answer) {
    var (b, a) := Hit(cfg, Find(u, Normalize(key)), now);
    (u[Normalize(key) := b], a)
  }

  /** The bucket of `key` if it still matters at time `now`. */
  function Live(cfg: Limits, table: map<string, Bucket>, key: string, now: int): Option<Bucket> {
    if key in table && !Expired(cfg, table[key], now) then Some(table[key]) else None
  }

  function LiveKeys(cfg: Limits, table: map<string, Bucket>, now: int): set<string> {
    set k | k in table && !Expired(cfg, table[k], now)
  }

  ghost predicate Agree(cfg: Limits, m: Buckets, u: map<string, Bucket>, now: int) {
    forall k :: Live(cfg, m.table, k, now) == Live(cfg, u, k, now)
  }

  lemma AgreeLater(cfg: Limits, m: Buckets, u: map<string, Bucket>, now: int, later: int)
    requires Agree(cfg, m, u, now) && now <= later
    ensures Agree(cfg, m, u, later)
  {
    forall k ensures Live(cfg, m.table, k, later) == Live(cfg, u, k, later) {
      assert Live(cfg, m.table, k, now) == Live(cfg, u, k, now);
    }
  }

  /** A well-formed table holds as many entries as it has distinct live keys plus expired ones. */
  lemma OrderSize(m: Buckets, keys: set<string>)
    requires WellFormed(m) && keys == set k | k in m.table
    ensures |m.order| == |keys|
  {
    Distinct(m.order);
    assert keys == set k | k in m.order;
  }

  lemma {:induction false} Distinct(s: seq<string>)
    requires NoRepeats(s)
    ensures |set k | k in s| == |s|
  {
    if s == [] {
      assert (set k | k in s) == {};
    } else {
      Distinct(s[1..]);
      assert (set k | k in s) == {s[0]} + set k | k in s[1..];
    }
  }

  lemma LiveKeysAgree(cfg: Limits, m: Buckets, u: map<string, Bucket>, now: int)
    requires Agree(cfg, m, u, now)
    ensures LiveKeys(cfg, m.table, now) == LiveKeys(cfg, u, now)
  {
    forall k ensures k in LiveKeys(cfg, m.table, now) <==> k in LiveKeys(cfg, u, now) {
      assert Live(cfg, m.table, k, now) == Live(cfg, u, k, now);
    }
  }

  /** Before eviction, one call keeps the two tables in agreement and gives the same answer. */
  lemma PutRefines(cfg: Limits, m: Buckets, u: map<string, Bucket>, key: string, now: int)
    requires Agree(cfg, m, u, now)
    ensures var k := Normalize(key);
            && Hit(cfg, Find(m.table, k), now) == Hit(cfg, Find(u, k), now)
            && Agree(cfg, Put(m, k, Hit(cfg, Find(m.table, k), now).0), FreeConsume(cfg, u, key, now).0, now)
  {
    var k := Normalize(key);
    var p := Put(m, k, Hit(cfg, Find(m.table, k), now).0);
    var u' := FreeConsume(cfg, u, key, now).0;
    assert Live(cfg, m.table, k, now) == Live(cfg, u, k, now);
    forall q ensures Live(cfg, p.table, q, now) == Live(cfg, u', q, now) {
      assert Live(cfg, m.table, q, now) == Live(cfg, u, q, now);
    }
  }

  /** Eviction loses no unexpired bucket exactly when at most `maxBuckets` are unexpired. */
  lemma EvictionIsInvisible(cfg: Limits, m: Buckets, key: string, now: int)
    requires WellFormed(m) && 1 <= cfg.maxBuckets && 0 < cfg.windowMs && |m.order| <= cfg.maxBuckets
    ensures var k := Normalize(key);
            var p := Put(m, k, Hit(cfg, Find(m.table, k), now).0);
            Agree(cfg, Consumed(cfg, m, key, now).0, p.table, now) <==> |LiveKeys(cfg, p.table, now)| <= cfg.maxBuckets
  {
    var k := Normalize(key);
    var b := Hit(cfg, Find(m.table, k), now).0;
    var p := Put(m, k, b);
    var m' := Consumed(cfg, m, key, now).0;
    PutKeepsWellFormed(m, k, b);
    ConsumeEffect(cfg, m, key, now);
    if |LiveKeys(cfg, p.table, now)| <= cfg.maxBuckets {
      forall q ensures Live(cfg, m'.table, q, now) == Live(cfg, p.table, q, now) {
        if q in p.table && q !in m'.table && !Expired(cfg, p.table[q], now) {
          assert LiveKeys(cfg, p.table, now) == p.table.Keys;
          OrderSize(p, p.table.Keys);
          assert false;
        }
      }
    } else if Agree(cfg, m', p.table, now) {
      LiveKeysAgree(cfg, m', p.table, now);
      OrderSize(m', m'.table.Keys);
      Subset(LiveKeys(cfg, m'.table, now), m'.table.Keys);
      assert false;
    }
  }

  /** One call: the two limiters give the same answer, and they stay in agreement exactly as long as the
      unbounded one holds no more than `maxBuckets` unexpired buckets. */
  lemma ConsumeRefines(cfg: Limits, m: Buckets, u: map<string, Bucket>, key: string, now: int)
    requires WellFormed(m) && 1 <= cfg.maxBuckets && 0 < cfg.windowMs && |m.order| <= cfg.maxBuckets
    requires Agree(cfg, m, u, now)
    ensures Consumed(cfg, m, key, now).1 == FreeConsume(cfg, u, key, now).1
    ensures Agree(cfg, Consumed(cfg, m, key, now).0, FreeConsume(cfg, u, key, now).0, now)
       <==> |LiveKeys(cfg, FreeConsume(cfg, u, key, now).0, now)| <= cfg.maxBuckets
  {
    var k := Normalize(key);
    var p := Put(m, k, Hit(cfg, Find(m.table, k), now).0);
    var (m', u') := (Consumed(cfg, m, key, now).0, FreeConsume(cfg, u, key, now).0);
    PutRefines(cfg, m, u, key, now);
    EvictionIsInvisible(cfg, m, key, now);
    LiveKeysAgree(cfg, p, u', now);
    assert forall q :: Live(cfg, p.table, q, now) == Live(cfg, u', q, now);
  }

  lemma Subset(a: set<string>, b: set<string>)
    requires a <= b
    ensures |a| <= |b|
  {
    if a != {} {
      var x :| x in a;
      Subset(a - {x}, b - {x});
    }
  }

  /** Losing an unexpired bucket is always visible: the next question about that key, asked at once, gets a
      different answer from the two limiters. */
  lemma DisagreementIsVisible(cfg: Limits, m: Buckets, u: map<string, Bucket>, key: string, now: int)
    requires key != "" && Live(cfg, u, key, now).Some? && Live(cfg, m.table, key, now).None?
    requires 1 <= u[key].count
    ensures Consumed(cfg, m, key, now).1 != FreeConsume(cfg, u, key, now).1
  {
  }

  /** The cap is exact: after a call, every question that could follow at once gets the same answer from both
      limiters if and only if no more than `maxBuckets` buckets are unexpired. */
  lemma CapIsExact(cfg: Limits, m: Buckets, u: map<string, Bucket>, key: string, now: int)
    requires WellFormed(m) && 1 <= cfg.maxBuckets && 0 < cfg.windowMs && |m.order| <= cfg.maxBuckets
    requires Agree(cfg, m, u, now) && forall k :: k in u ==> k != "" && 1 <= u[k].count
    ensures var m', u' := Consumed(cfg, m, key, now).0, FreeConsume(cfg, u, key, now).0;
            (forall q :: Consumed(cfg, m', q, now).1 == FreeConsume(cfg, u', q, now).1)
            <==> |LiveKeys(cfg, u', now)| <= cfg.maxBuckets
  {
    var m', u' := Consumed(cfg, m, key, now).0, FreeConsume(cfg, u, key, now).0;
    ConsumeEffect(cfg, m, key, now);
    ConsumeRefines(cfg, m, u, key, now);
    if |LiveKeys(cfg, u', now)| <= cfg.maxBuckets {
      forall q ensures Consumed(cfg, m', q, now).1 == FreeConsume(cfg, u', q, now).1 {
        ConsumeRefines(cfg, m', u', q, now);
      }
    } else {
      var q :| Live(cfg, m'.table, q, now) != Live(cfg, u', q, now);
      assert Live(cfg, m.table, q, now) == Live(cfg, u, q, now);
      DisagreementIsVisible(cfg, m', u', q, now);
    }
  }

  function Step(cfg: Limits, m: Buckets, c: Call): Buckets {
    match c
    case Consumption(key, now) => Consumed(cfg, m, key, now).0
    case Reset(key) => Delete(m, key)
  }

  function FreeStep(cfg: Limits, u: map<string, Bucket>, c: Call): map<string, Bucket> {
    match c
    case Consumption(key, now) => FreeConsume(cfg, u, key, now).0
    case Reset(key) => u - {key}
  }

  function Answers(cfg: Limits, m: Buckets, calls: seq<Call>): seq<Answer>
    decreases |calls|
  {
    if calls == [] then []
    else (if calls[0].Consumption? then [Consumed(cfg, m, calls[0].key, calls[0].now).1] else [])
         + Answers(cfg, Step(cfg, m, calls[0]), calls[1..])
  }

  function FreeAnswers(cfg: Limits, u: map<string, Bucket>, calls: seq<Call>): seq<Answer>
    decreases |calls|
  {
    if calls == [] then []
    else (if calls[0].Consumption? then [FreeConsume(cfg, u, calls[0].key, calls[0].now).1] else [])
         + FreeAnswers(cfg, FreeStep(cfg, u, calls[0]), calls[1..])
  }

  /** Times never go back, from `now` on. */
  predicate Monotone(calls: seq<Call>, now: int) {
    calls == [] ||
    if calls[0].Consumption? then now <= calls[0].now && Monotone(calls[1..], calls[0].now)
    else Monotone(calls[1..], now)
  }

  /** The unbounded limiter never holds more than `maxBuckets` unexpired buckets during the run. */
  ghost predicate WithinCap(cfg: Limits, u: map<string, Bucket>, calls: seq<Call>)
    decreases |calls|
  {
    calls == [] ||
    var u' := FreeStep(cfg, u, calls[0]);
    && (calls[0].Consumption? ==> |LiveKeys(cfg, u', calls[0].now)| <= cfg.maxBuckets)
    && WithinCap(cfg, u', calls[1..])
  }

  /** Every run: within the cap, every answer of the capped limiter is the unbounded limiter's answer. */
  lemma {:induction false} RunRefines(cfg: Limits, m: Buckets, u: map<string, Bucket>, calls: seq<Call>, now: int)
    requires 1 <= cfg.maxBuckets && 0 < cfg.windowMs
    requires WellFormed(m) && |m.order| <= cfg.maxBuckets && Agree(cfg, m, u, now)
    requires Monotone(calls, now) && WithinCap(cfg, u, calls)
    ensures Answers(cfg, m, calls) == FreeAnswers(cfg, u, calls)
    decreases |calls|
  {
    if calls != [] {
      var (m', u') := (Step(cfg, m, calls[0]), FreeStep(cfg, u, calls[0]));
      match calls[0]
      case Consumption(key, t) =>
        AgreeLater(cfg, m, u, now, t);
        ConsumeEffect(cfg, m, key, t);
        ConsumeRefines(cfg, m, u, key, t);
        RunRefines(cfg, m', u', calls[1..], t);
      case Reset(key) =>
        DeleteKeepsWellFormed(m, key);
        forall k ensures Live(cfg, m'.table, k, now) == Live(cfg, u', k, now) {
          assert Live(cfg, m.table, k, now) == Live(cfg, u, k, now);
        }
        RunRefines(cfg, m', u', calls[1..], now);
    }
  }

  /** From the empty limiter, the hypothesis is only about the clock and the number of unexpired buckets. */
  lemma NewLimiterRefines(cfg: Limits, calls: seq<Call>, start: int)
    requires 1 <= cfg.maxBuckets && 0 < cfg.windowMs
    requires Monotone(calls, start) && WithinCap(cfg, map[], calls)
    ensures Answers(cfg, NO_BUCKETS, calls) == FreeAnswers(cfg, map[], calls)
  {
    RunRefines(cfg, NO_BUCKETS, map[], calls, start);
  }

  /** Resetting a key removes the bucket that consuming it left, and no other, exactly when the key is not empty:
      `reset` does not normalise its key, so resetting the empty key leaves the bucket "unknown" that consuming the
      empty key made. */
  lemma ResetUndoesConsume(cfg: Limits, m: Buckets, key: string, now: int)
    requires WellFormed(m) && 1 <= cfg.maxBuckets && 0 < cfg.windowMs && |m.order| <= cfg.maxBuckets
    ensures var m' := Consumed(cfg, m, key, now).0;
            && Normalize(key) in m'.table
            && (Normalize(key) !in Delete(m', key).table <==> key != "")
            && ("" !in m.table && key == "" ==> Delete(m', key).table == m'.table)
  {
    ConsumeEffect(cfg, m, key, now);
  }

  // ---------------------------------------------------------------------------------------------
  // Sliding intervals
  // ---------------------------------------------------------------------------------------------

  /** During the run, `key` is never reset and its bucket is never evicted before it has expired. */
  ghost predicate Undisturbed(cfg: Limits, m: Buckets, calls: seq<Call>, key: string)
    decreases |calls|
  {
    calls == [] ||
    var m' := Step(cfg, m, calls[0]);
    && (match calls[0]
        case Reset(r) => r != key
        case Consumption(q, t) => Live(cfg, m.table, key, t).Some? ==> key in m'.table)
    && Undisturbed(cfg, m', calls[1..], key)
  }

  /** How many calls for `key` are allowed at times in [from, to). */
  function AllowedBetween(cfg: Limits, m: Buckets, calls: seq<Call>, key: string, from: int, to: int): nat
    decreases |calls|
  {
    if calls == [] then 0
    else
      (if calls[0].Consumption? && Normalize(calls[0].key) == key && from <= calls[0].now < to
          && Consumed(cfg, m, calls[0].key, calls[0].now).1.allowed then 1 else 0)
      + AllowedBetween(cfg, Step(cfg, m, calls[0]), calls[1..], key, from, to)
  }

  /** The most that any interval of one window's length can see; an interval of one millisecond meets one window. */
  function SlidingMax(cfg: Limits): int {
    if cfg.windowMs == 1 then cfg.maxAttempts else 2 * cfg.maxAttempts - 1
  }

  /** How many more calls can be allowed in [from, from + windowMs), given the key's bucket. */
  function Budget(cfg: Limits, b: Option<Bucket>, from: int): int {
    if b.None? || b.value.startedAt + cfg.windowMs <= from then SlidingMax(cfg)
    else if from + cfg.windowMs <= b.value.startedAt then 0
    else Max(0, cfg.maxAttempts - b.value.count) + (if b.value.startedAt < from then cfg.maxAttempts else 0)
  }

  lemma BudgetStep(cfg: Limits, b: Option<Bucket>, t: int, from: int)
    requires 0 < cfg.windowMs && 1 <= cfg.maxAttempts
    requires b.Some? ==> b.value.startedAt <= t && 1 <= b.value.count
    ensures var (b', a) := Hit(cfg, b, t);
            && b'.startedAt <= t && 1 <= b'.count && !Expired(cfg, b', t)
            && (if from <= t < from + cfg.windowMs && a.allowed then 1 else 0) + Budget(cfg, Some(b'), from)
               <= Budget(cfg, b, from)
  {
  }

  /** The induction behind the interval bounds: `b` is the key's bucket as an undisturbed limiter keeps it. */
  lemma {:induction false} BudgetSuffices(cfg: Limits, m: Buckets, b: Option<Bucket>, calls: seq<Call>, key: string,
                                          now: int, from: int)
    requires 1 <= cfg.maxBuckets && 0 < cfg.windowMs && 1 <= cfg.maxAttempts
    requires WellFormed(m) && |m.order| <= cfg.maxBuckets && key != ""
    requires Monotone(calls, now) && Undisturbed(cfg, m, calls, key)
    requires Live(cfg, m.table, key, now) == if b.Some? && !Expired(cfg, b.value, now) then b else None
    requires b.Some? ==> b.value.startedAt <= now && 1 <= b.value.count
    ensures AllowedBetween(cfg, m, calls, key, from, from + cfg.windowMs) <= Budget(cfg, b, from)
    decreases |calls|
  {
    if calls != [] {
      var m' := Step(cfg, m, calls[0]);
      match calls[0]
      case Consumption(q, t) =>
        ConsumeEffect(cfg, m, q, t);
        if Normalize(q) == key {
          BudgetStep(cfg, b, t, from);
          assert Hit(cfg, Find(m.table, key), t) == Hit(cfg, b, t);
          BudgetSuffices(cfg, m', Some(Hit(cfg, b, t).0), calls[1..], key, t, from);
        } else {
          BudgetSuffices(cfg, m', b, calls[1..], key, t, from);
        }
      case Reset(r) =>
        DeleteKeepsWellFormed(m, r);
        BudgetSuffices(cfg, m', b, calls[1..], key, now, from);
    }
  }

  /** Any interval of one window's length sees fewer than twice `maxAttempts` allowed calls: the call that
      opened the older of the two windows involved lies before the interval. */
  lemma SlidingBound(cfg: Limits, calls: seq<Call>, key: string, start: int, from: int)
    requires 1 <= cfg.maxBuckets && 0 < cfg.windowMs && 1 <= cfg.maxAttempts && key != ""
    requires Monotone(calls, start) && Undisturbed(cfg, NO_BUCKETS, calls, key)
    ensures AllowedBetween(cfg, NO_BUCKETS, calls, key, from, from + cfg.windowMs) <= SlidingMax(cfg)
  {
    BudgetSuffices(cfg, NO_BUCKETS, None, calls, key, start, from);
  }

  /** A window that opens at time `t`, with the call that creates the bucket, allows at most `maxAttempts`. */
  lemma {:induction false} WindowBound(cfg: Limits, m: Buckets, calls: seq<Call>, key: string, t: int)
    requires 1 <= cfg.maxBuckets && 0 < cfg.windowMs && 1 <= cfg.maxAttempts && key != ""
    requires WellFormed(m) && |m.order| <= cfg.maxBuckets && Live(cfg, m.table, key, t).None?
    requires calls != [] && calls[0] == Consumption(key, t)
    requires Monotone(calls, t) && Undisturbed(cfg, m, calls, key)
    ensures AllowedBetween(cfg, m, calls, key, t, t + cfg.windowMs) <= cfg.maxAttempts
  {
    var m' := Step(cfg, m, calls[0]);
    ConsumeEffect(cfg, m, key, t);
    BudgetSuffices(cfg, m', Some(Bucket(t, 1)), calls[1..], key, t, t);
  }

  function OneBucket(b: Bucket): Buckets {
    Buckets(["k"], map["k" := b])
  }

  /** The first `n` calls are all for the key at time `t`. */
  ghost predicate StartsWith(calls: seq<Call>, n: nat, t: int) {
    n <= |calls| && forall i :: 0 <= i < n ==> calls[i] == Consumption("k", t)
  }

  /** A call to a live bucket with room is allowed and raises the count. */
  lemma CountsOne(cfg: Limits, b: Bucket, t: int, calls: seq<Call>, from: int, to: int)
    requires !Expired(cfg, b, t) && b.count + 1 <= cfg.maxAttempts && from <= t < to
    requires calls != [] && calls[0] == Consumption("k", t)
    ensures AllowedBetween(cfg, OneBucket(b), calls, "k", from, to)
         == 1 + AllowedBetween(cfg, OneBucket(Bucket(b.startedAt, b.count + 1)), calls[1..], "k", from, to)
  {
    var b1 := Bucket(b.startedAt, b.count + 1);
    assert OneBucket(b).table["k" := b1] == map["k" := b1];
    assert Step(cfg, OneBucket(b), calls[0]) == OneBucket(b1);
  }

  ghost predicate EachCountsOne(left: nat -> int, n: nat) {
    forall i :: 0 <= i < n ==> left(i) == 1 + left(i + 1)
  }

  lemma {:induction false} AddUp(left: nat -> int, n: nat)
    requires EachCountsOne(left, n)
    ensures left(0) == n + left(n)
  {
    if n > 0 {
      AddUp(left, n - 1);
    }
  }

  /** The calls allowed from the `i`-th on, once `i` calls have been counted. */
  ghost function AllowedAfter(cfg: Limits, b: Bucket, calls: seq<Call>, from: int, to: int): nat -> int {
    (i: nat) => if i > |calls| then 0
                else AllowedBetween(cfg, OneBucket(Bucket(b.startedAt, b.count + i)), calls[i..], "k", from, to)
  }

  lemma CountsOneAt(cfg: Limits, b: Bucket, n: nat, t: int, calls: seq<Call>, from: int, to: int, i: nat)
    requires !Expired(cfg, b, t) && b.count + n <= cfg.maxAttempts && from <= t < to && StartsWith(calls, n, t) && i < n
    ensures AllowedAfter(cfg, b, calls, from, to)(i) == 1 + AllowedAfter(cfg, b, calls, from, to)(i + 1)
  {
    assert calls[i..][1..] == calls[i + 1..];
    CountsOne(cfg, Bucket(b.startedAt, b.count + i), t, calls[i..], from, to);
  }

  lemma EachCounts(cfg: Limits, b: Bucket, n: nat, t: int, calls: seq<Call>, from: int, to: int)
    requires !Expired(cfg, b, t) && b.count + n <= cfg.maxAttempts && from <= t < to && StartsWith(calls, n, t)
    ensures EachCountsOne(AllowedAfter(cfg, b, calls, from, to), n)
  {
    forall i: nat | i < n
      ensures AllowedAfter(cfg, b, calls, from, to)(i) == 1 + AllowedAfter(cfg, b, calls, from, to)(i + 1)
    {
      CountsOneAt(cfg, b, n, t, calls, from, to, i);
    }
  }

  /** A live bucket with room for `n` calls allows them all, and the run goes on from the raised count. */
  lemma RepeatAllowed(cfg: Limits, b: Bucket, n: nat, t: int, calls: seq<Call>, from: int, to: int)
    requires !Expired(cfg, b, t) && b.count + n <= cfg.maxAttempts && from <= t < to && StartsWith(calls, n, t)
    ensures AllowedBetween(cfg, OneBucket(b), calls, "k", from, to)
         == n + AllowedBetween(cfg, OneBucket(Bucket(b.startedAt, b.count + n)), calls[n..], "k", from, to)
  {
    EachCounts(cfg, b, n, t, calls, from, to);
    AddUp(AllowedAfter(cfg, b, calls, from, to), n);
    assert calls[0..] == calls && Bucket(b.startedAt, b.count + 0) == b;
  }

  /** A call that finds no live bucket is allowed and opens a window. */
  lemma OpensWindow(cfg: Limits, m: Buckets, t: int, calls: seq<Call>, from: int, to: int)
    requires 1 <= cfg.maxBuckets && calls != [] && calls[0] == Consumption("k", t)
    requires m == NO_BUCKETS || (exists b :: m == OneBucket(b) && Expired(cfg, b, t))
    ensures AllowedBetween(cfg, m, calls, "k", from, to)
         == (if from <= t < to then 1 else 0) + AllowedBetween(cfg, OneBucket(Bucket(t, 1)), calls[1..], "k", from, to)
  {
    assert m.table["k" := Bucket(t, 1)] == map["k" := Bucket(t, 1)];
    assert Step(cfg, m, calls[0]) == OneBucket(Bucket(t, 1));
  }

  lemma FullWindow(cfg: Limits, t: int, calls: seq<Call>, from: int, to: int)
    requires 1 <= cfg.maxBuckets && 0 < cfg.windowMs <= t && 1 <= cfg.maxAttempts && from <= t < to
    requires StartsWith(calls, cfg.maxAttempts, t) && |calls| == cfg.maxAttempts
    ensures AllowedBetween(cfg, OneBucket(Bucket(0, cfg.maxAttempts)), calls, "k", from, to) == cfg.maxAttempts
  {
    var b := Bucket(0, cfg.maxAttempts);
    assert Expired(cfg, b, t);
    OpensWindow(cfg, OneBucket(b), t, calls, from, to);
    AllAllowed(cfg, t, calls[1..], from, to);
  }

  lemma AllAllowed(cfg: Limits, t: int, rest: seq<Call>, from: int, to: int)
    requires 0 < cfg.windowMs && 1 + |rest| <= cfg.maxAttempts && from <= t < to && StartsWith(rest, |rest|, t)
    ensures AllowedBetween(cfg, OneBucket(Bucket(t, 1)), rest, "k", from, to) == |rest|
  {
    RepeatAllowed(cfg, Bucket(t, 1), |rest|, t, rest, from, to);
    assert rest[|rest|..] == [];
  }

  /** One call opens a window, the rest of its allowance is spent just before it expires, and the whole next allowance
      right after. */
  lemma TwoWindowsMeet(cfg: Limits, calls: seq<Call>)
    requires 1 <= cfg.maxBuckets && 2 <= cfg.windowMs && 1 <= cfg.maxAttempts
    requires |calls| == 2 * cfg.maxAttempts && calls[0] == Consumption("k", 0)
    requires StartsWith(calls[1..], cfg.maxAttempts - 1, cfg.windowMs - 1)
    requires StartsWith(calls[cfg.maxAttempts..], cfg.maxAttempts, cfg.windowMs)
    ensures AllowedBetween(cfg, NO_BUCKETS, calls, "k", 1, 1 + cfg.windowMs) == 2 * cfg.maxAttempts - 1
  {
    var (n, w) := (cfg.maxAttempts, cfg.windowMs);
    OpensWindow(cfg, NO_BUCKETS, 0, calls, 1, 1 + w);
    RepeatAllowed(cfg, Bucket(0, 1), n - 1, w - 1, calls[1..], 1, 1 + w);
    assert calls[1..][n - 1..] == calls[n..];
    FullWindow(cfg, w, calls[n..], 1, 1 + w);
  }

  function Repeated(n: nat, t: int): seq<Call> {
    seq(n, _ => Consumption("k", t))
  }

  lemma {:induction false} RepeatedIsMonotone(n: nat, t: int, rest: seq<Call>, now: int)
    requires now <= t && Monotone(rest, t)
    ensures Monotone(Repeated(n, t) + rest, now)
  {
    if n == 0 {
      assert Repeated(0, t) + rest == rest;
      LaterIsMonotone(rest, t, now);
    } else {
      assert (Repeated(n, t) + rest)[1..] == Repeated(n - 1, t) + rest;
      RepeatedIsMonotone(n - 1, t, rest, t);
    }
  }

  lemma {:induction false} LaterIsMonotone(calls: seq<Call>, t: int, now: int)
    requires now <= t && Monotone(calls, t)
    ensures Monotone(calls, now)
  {
    if calls != [] && calls[0].Reset? {
      LaterIsMonotone(calls[1..], t, now);
    }
  }

  /** A key that alone is consumed keeps its bucket. */
  lemma {:induction false} AloneIsUndisturbed(cfg: Limits, m: Buckets, calls: seq<Call>)
    requires 1 <= cfg.maxBuckets && 0 < cfg.windowMs && WellFormed(m) && |m.order| <= cfg.maxBuckets
    requires OnlyForK(calls)
    ensures Undisturbed(cfg, m, calls, "k")
    decreases |calls|
  {
    if calls != [] {
      ConsumeEffect(cfg, m, "k", calls[0].now);
      AloneIsUndisturbed(cfg, Step(cfg, m, calls[0]), calls[1..]);
    }
  }

  /** The bound is reached for every limit, by a run that meets its hypotheses. */
  lemma SlidingBoundIsTight(cfg: Limits) returns (calls: seq<Call>, from: int)
    requires 1 <= cfg.maxBuckets && 0 < cfg.windowMs && 1 <= cfg.maxAttempts
    ensures Monotone(calls, 0) && Undisturbed(cfg, NO_BUCKETS, calls, "k")
    ensures AllowedBetween(cfg, NO_BUCKETS, calls, "k", from, from + cfg.windowMs) == SlidingMax(cfg)
  {
    from := 1;
    if cfg.windowMs == 1 {
      calls := OneWindowRun(cfg);
    } else {
      calls := TwoWindowRun(cfg);
    }
    AloneIsUndisturbed(cfg, NO_BUCKETS, calls);
  }

  ghost predicate OnlyForK(calls: seq<Call>) {
    forall i :: 0 <= i < |calls| ==> calls[i].Consumption? && calls[i].key == "k"
  }

  lemma OneWindowRun(cfg: Limits) returns (calls: seq<Call>)
    requires 1 <= cfg.maxBuckets && cfg.windowMs == 1 && 1 <= cfg.maxAttempts
    ensures Monotone(calls, 0) && OnlyForK(calls)
    ensures AllowedBetween(cfg, NO_BUCKETS, calls, "k", 1, 2) == cfg.maxAttempts
  {
    calls := Repeated(cfg.maxAttempts, 1);
    RepeatedIsMonotone(cfg.maxAttempts, 1, [], 0);
    assert calls + [] == calls;
    OpensWindow(cfg, NO_BUCKETS, 1, calls, 1, 2);
    AllAllowed(cfg, 1, calls[1..], 1, 2);
  }

  lemma TwoWindowRun(cfg: Limits) returns (calls: seq<Call>)
    requires 1 <= cfg.maxBuckets && 2 <= cfg.windowMs && 1 <= cfg.maxAttempts
    ensures Monotone(calls, 0) && OnlyForK(calls)
    ensures AllowedBetween(cfg, NO_BUCKETS, calls, "k", 1, 1 + cfg.windowMs) == 2 * cfg.maxAttempts - 1
  {
    var (n, w) := (cfg.maxAttempts, cfg.windowMs);
    var rest := Repeated(n - 1, w - 1) + Repeated(n, w);
    calls := [Consumption("k", 0)] + rest;
    assert calls[1..] == rest && calls[n..] == Repeated(n, w);
    TwoBurstsAreMonotone(n, w);
    TwoWindowsMeet(cfg, calls);
  }

  lemma TwoBurstsAreMonotone(n: nat, w: int)
    requires 0 < n && 0 < w
    ensures Monotone(Repeated(n - 1, w - 1) + Repeated(n, w), 0)
  {
    RepeatedIsMonotone(n, w, [], w - 1);
    assert Repeated(n, w) + [] == Repeated(n, w);
    RepeatedIsMonotone(n - 1, w - 1, Repeated(n, w), 0);
  }

  /** `remaining` tells the truth about what comes next: while the window lasts and the bucket is not dropped, the
      next call is allowed exactly if it is positive, and then leaves one less. */
  lemma RemainingIsExact(cfg: Limits, m: Buckets, key: string, now: int, others: seq<Call>, later: int)
    requires 1 <= cfg.maxBuckets && 0 < cfg.windowMs && 1 <= cfg.maxAttempts
    requires WellFormed(m) && |m.order| <= cfg.maxBuckets && NoConsumption(others, Normalize(key))
    requires var m' := Consumed(cfg, m, key, now).0;
             && Normalize(key) in m'.table && Normalize(key) in Run(cfg, m', others).table
             && now <= later < m'.table[Normalize(key)].startedAt + cfg.windowMs
    ensures var a := Consumed(cfg, m, key, now).1;
            var next := Consumed(cfg, Run(cfg, Consumed(cfg, m, key, now).0, others), key, later).1;
            && (next.allowed <==> 0 < a.remaining)
            && next.remaining == (if 0 < a.remaining then a.remaining - 1 else 0)
            && (next.allowed <==> next.retryAfterSeconds == 0)
  {
    ConsumeEffect(cfg, m, key, now);
    OthersLeaveBucket(cfg, Consumed(cfg, m, key, now).0, others, Normalize(key));
  }

  // ---------------------------------------------------------------------------------------------
  // Retry-After
  // ---------------------------------------------------------------------------------------------

  function Run(cfg: Limits, m: Buckets, calls: seq<Call>): Buckets
    decreases |calls|
  {
    if calls == [] then m else Run(cfg, Step(cfg, m, calls[0]), calls[1..])
  }

  predicate NoConsumption(calls: seq<Call>, key: string) {
    forall i :: 0 <= i < |calls| && calls[i].Consumption? ==> Normalize(calls[i].key) != key
  }

  lemma {:induction false} OthersLeaveBucket(cfg: Limits, m: Buckets, calls: seq<Call>, key: string)
    requires 1 <= cfg.maxBuckets && 0 < cfg.windowMs && WellFormed(m) && |m.order| <= cfg.maxBuckets
    requires NoConsumption(calls, key)
    ensures var r := Run(cfg, m, calls);
            && WellFormed(r) && |r.order| <= cfg.maxBuckets
            && (key in r.table ==> key in m.table && r.table[key] == m.table[key])
    decreases |calls|
  {
    if calls != [] {
      if calls[0].Consumption? {
        ConsumeEffect(cfg, m, calls[0].key, calls[0].now);
      } else {
        DeleteKeepsWellFormed(m, calls[0].key);
      }
      OthersLeaveBucket(cfg, Step(cfg, m, calls[0]), calls[1..], key);
    }
  }

  /** A refused caller that waits the announced number of seconds is let through, whatever the other keys do
      in between. The announced wait is the least whole number of seconds: one less ends inside the window. */
  lemma RetryAfterIsHonest(cfg: Limits, m: Buckets, key: string, now: int, others: seq<Call>, later: int)
    requires 1 <= cfg.maxBuckets && 0 < cfg.windowMs && WellFormed(m) && |m.order| <= cfg.maxBuckets
    requires !Consumed(cfg, m, key, now).1.allowed
    requires NoConsumption(others, Normalize(key))
    requires now + 1000 * Consumed(cfg, m, key, now).1.retryAfterSeconds <= later
    ensures Consumed(cfg, Run(cfg, Consumed(cfg, m, key, now).0, others), key, later).1.allowed
    ensures var wait := Consumed(cfg, m, key, now).1.retryAfterSeconds;
            now + 1000 * (wait - 1) < m.table[Normalize(key)].startedAt + cfg.windowMs
  {
    ConsumeEffect(cfg, m, key, now);
    OthersLeaveBucket(cfg, Consumed(cfg, m, key, now).0, others, Normalize(key));
    var b := m.table[Normalize(key)];
    var ms := cfg.windowMs - (now - b.startedAt);
    assert 0 < ms;
    assert ms <= 1000 * CeilSeconds(ms) < ms + 1000;
  }
}
