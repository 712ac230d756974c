/** The promise-chain mutex that serializes writers of one store: `withSessionMutation` in
src/user/AuthSessionManager.ts and `auditWriteQueue` in src/datastore/DataStore.ts.

A call made while others are under way captures the chain's tail and replaces it with its own settlement, which
never rejects. Its operation then reads the store, and later may overwrite it; other events can come between
any two of these steps. Reads and writes may also fail. The steps of all calls interleave freely here, subject
only to what each one waits for. */
module PromiseChain {
  import opened Wrappers

  /** What an operation decides once it has read: the value to overwrite the store with, if any, and its result. */
  datatype Plan<+S, +R> = Plan(write: Option<S>, result: R)

  /** An operation's read: what the read leaves in the store, and the plan. `E` is what the operation takes from
      its surroundings at that moment, such as the clock and random draws. */
  type Operation<!E, !S, R> = (E, S) -> (S, Plan<S, R>)

  datatype Phase<+E, +S, +R> =
    | Waiting
    | Planned(env: E, plan: Plan<S, R>)
    | Settled(outcome: Outcome<E, R>)

  /** How a call ended: with its result, or rejected by a failing read or by a failing write. */
  datatype Outcome<+E, +R> = Fulfilled(env: E, result: R) | ReadFailed | WriteFailed(env: E)

  datatype Call<!E, !S, R> = Call(operation: Operation<E, S, R>, previous: Option<nat>, phase: Phase<E, S, R>)

  datatype System<!E, !S, R> = System(store: S, calls: seq<Call<E, S, R>>, tail: Option<nat>)

  datatype Event<!E, !S, R> =
    | Submit(operation: Operation<E, S, R>)
    | Read(call: nat, env: E, fails: bool)
    | Finish(call: nat, fails: bool)

  function Unused<E, S, R>(store: S): System<E, S, R> {
    System(store, [], None)
  }

  /** A call may start once the settlement it captured has happened; `previous.then(operation)`. */
  predicate MayStart<E, S, R>(sys: System<E, S, R>, i: nat)
    requires i < |sys.calls|
  {
    var p := sys.calls[i].previous;
    p.None? || (p.value < |sys.calls| && sys.calls[p.value].phase.Settled?)
  }

  predicate Enabled<E, S, R>(sys: System<E, S, R>, e: Event<E, S, R>) {
    match e
    case Submit(_) => true
    case Read(i, _, _) => i < |sys.calls| && sys.calls[i].phase.Waiting? && MayStart(sys, i)
    case Finish(i, fails) =>
      && i < |sys.calls| && sys.calls[i].phase.Planned?
      && (fails ==> sys.calls[i].phase.plan.write.Some?)
  }

  function Next<E, S, R>(sys: System<E, S, R>, e: Event<E, S, R>): System<E, S, R>
    requires Enabled(sys, e)
  {
    match e
    case Submit(operation) =>
      sys.(calls := sys.calls + [Call(operation, sys.tail, Waiting)], tail := Some(|sys.calls|))
    case Read(i, env, fails) =>
      var c := sys.calls[i];
      if fails then sys.(calls := sys.calls[i := c.(phase := Settled(ReadFailed))])
      else
        var (store, plan) := c.operation(env, sys.store);
        sys.(store := store, calls := sys.calls[i := c.(phase := Planned(env, plan))])
    case Finish(i, fails) =>
      var c := sys.calls[i];
      var env, plan := c.phase.env, c.phase.plan;
      if fails then sys.(calls := sys.calls[i := c.(phase := Settled(WriteFailed(env)))])
      else
        sys.(store := if plan.write.Some? then plan.write.value else sys.store,
             calls := sys.calls[i := c.(phase := Settled(Fulfilled(env, plan.result)))])
  }

  // ---------------------------------------------------------------------------------------------
  // The serial reference
  // ---------------------------------------------------------------------------------------------

  /** One operation alone: what it leaves in the store, given how it ended. */
  function Alone<E, S, R>(store: S, operation: Operation<E, S, R>, o: Outcome<E, R>): S {
    match o
    case ReadFailed => store
    case WriteFailed(env) => operation(env, store).0
    case Fulfilled(env, _) =>
      var (s, plan) := operation(env, store);
      if plan.write.Some? then plan.write.value else s
  }

  /** The first `n` calls run one at a time, in submission order. */
  function Serial<E, S, R>(store: S, calls: seq<Call<E, S, R>>, n: nat): S
    requires n <= |calls| && forall i :: 0 <= i < n ==> calls[i].phase.Settled?
  {
    if n == 0 then store
    else Alone(Serial(store, calls, n - 1), calls[n - 1].operation, calls[n - 1].phase.outcome)
  }

  /** The result of a fulfilled call is the one its operation gives when the calls before it ran alone. */
  ghost predicate ResultsAreSerial<E, S, R>(store: S, calls: seq<Call<E, S, R>>, n: nat)
    requires n <= |calls| && forall i :: 0 <= i < n ==> calls[i].phase.Settled?
  {
    forall i :: 0 <= i < n && calls[i].phase.outcome.Fulfilled? ==>
      calls[i].phase.outcome.result == calls[i].operation(calls[i].phase.outcome.env, Serial(store, calls, i)).1.result
  }

  // ---------------------------------------------------------------------------------------------
  // Serializability
  // ---------------------------------------------------------------------------------------------

  /** The calls before `n` have settled, call `n` may be under way, the later ones wait; and each waits for the
      call before it. */
  ghost predicate Chained<E, S, R>(sys: System<E, S, R>, n: nat) {
    && n <= |sys.calls|
    && sys.tail == (if sys.calls == [] then None else Some(|sys.calls| - 1))
    && (forall i :: 0 <= i < |sys.calls| ==> sys.calls[i].previous == if i == 0 then None else Some(i - 1))
    && (forall i :: 0 <= i < n ==> sys.calls[i].phase.Settled?)
    && (n < |sys.calls| ==> !sys.calls[n].phase.Settled?)
    && (forall i :: n < i < |sys.calls| ==> sys.calls[i].phase.Waiting?)
  }

  /** The store is what the settled calls leave when run alone, plus the read of the one under way. */
  ghost predicate Serialized<E, S, R>(start: S, sys: System<E, S, R>, n: nat) {
    && Chained(sys, n)
    && ResultsAreSerial(start, sys.calls, n)
    && var before := Serial(start, sys.calls, n);
       if n < |sys.calls| && sys.calls[n].phase.Planned? then
         sys.calls[n].operation(sys.calls[n].phase.env, before) == (sys.store, sys.calls[n].phase.plan)
       else sys.store == before
  }

  lemma {:induction false} SerialLocal<E, S, R>(start: S, a: seq<Call<E, S, R>>, b: seq<Call<E, S, R>>, n: nat)
    requires n <= |a| && n <= |b| && a[..n] == b[..n] && forall i :: 0 <= i < n ==> a[i].phase.Settled?
    ensures forall i :: 0 <= i < n ==> b[i] == a[i]
    ensures Serial(start, a, n) == Serial(start, b, n)
    ensures ResultsAreSerial(start, a, n) <==> ResultsAreSerial(start, b, n)
  {
    forall i | 0 <= i < n ensures b[i] == a[i] { assert a[..n][i] == b[..n][i]; }
    forall i: nat | i <= n ensures Serial(start, a, i) == Serial(start, b, i) { SerialSame(start, a, b, i); }
  }

  lemma {:induction false} SerialSame<E, S, R>(start: S, a: seq<Call<E, S, R>>, b: seq<Call<E, S, R>>, n: nat)
    requires n <= |a| && n <= |b| && (forall i :: 0 <= i < n ==> a[i].phase.Settled? && b[i] == a[i])
    ensures Serial(start, a, n) == Serial(start, b, n)
  {
    if n > 0 {
      SerialSame(start, a, b, n - 1);
    }
  }

  lemma SubmitIsSerialized<E, S, R>(start: S, sys: System<E, S, R>, n: nat, operation: Operation<E, S, R>)
    requires Serialized(start, sys, n)
    ensures Serialized(start, Next(sys, Submit(operation)), n)
  {
    var t := Next(sys, Submit(operation));
    assert t.calls[..n] == sys.calls[..n];
    SerialLocal(start, sys.calls, t.calls, n);
    assert Chained(t, n);
  }

  /** Only the earliest unsettled call can start, because each waits for the one before it. */
  lemma OnlyTheFirstMoves<E, S, R>(sys: System<E, S, R>, n: nat, e: Event<E, S, R>)
    requires Chained(sys, n) && Enabled(sys, e) && !e.Submit?
    ensures e.call == n
  {
  }

  lemma {:induction false} ReadIsSerialized<E, S, R>(start: S, sys: System<E, S, R>, n: nat, env: E, fails: bool)
    requires Serialized(start, sys, n) && Enabled(sys, Read(n, env, fails))
    ensures Serialized(start, Next(sys, Read(n, env, fails)), if fails then n + 1 else n)
  {
    var t := Next(sys, Read(n, env, fails));
    SerialLocal(start, sys.calls, t.calls, n);
    if fails {
      SettledIsSerial(start, t, n);
    }
  }

  lemma {:induction false} FinishIsSerialized<E, S, R>(start: S, sys: System<E, S, R>, n: nat, fails: bool)
    requires Serialized(start, sys, n) && Enabled(sys, Finish(n, fails))
    ensures Serialized(start, Next(sys, Finish(n, fails)), n + 1)
  {
    var t := Next(sys, Finish(n, fails));
    assert Chained(t, n + 1);
    SerialLocal(start, sys.calls, t.calls, n);
    SettledIsSerial(start, t, n);
  }

  /** A call that settles as its operation would alone extends the serial prefix by one. */
  lemma SettledIsSerial<E, S, R>(start: S, t: System<E, S, R>, n: nat)
    requires n < |t.calls| && (forall i :: 0 <= i <= n ==> t.calls[i].phase.Settled?)
    requires ResultsAreSerial(start, t.calls, n)
    requires var o := t.calls[n].phase.outcome;
             o.Fulfilled? ==> o.result == t.calls[n].operation(o.env, Serial(start, t.calls, n)).1.result
    ensures ResultsAreSerial(start, t.calls, n + 1)
    ensures Serial(start, t.calls, n + 1)
         == Alone(Serial(start, t.calls, n), t.calls[n].operation, t.calls[n].phase.outcome)
  {
  }

  lemma NextIsSerialized<E, S, R>(start: S, sys: System<E, S, R>, n: nat, e: Event<E, S, R>) returns (n': nat)
    requires Serialized(start, sys, n) && Enabled(sys, e)
    ensures Serialized(start, Next(sys, e), n')
  {
    match e
    case Submit(operation) =>
      n' := n;
      SubmitIsSerialized(start, sys, n, operation);
    case Read(i, env, fails) =>
      OnlyTheFirstMoves(sys, n, e);
      ReadIsSerialized(start, sys, n, env, fails);
      n' := if fails then n + 1 else n;
    case Finish(i, fails) =>
      OnlyTheFirstMoves(sys, n, e);
      FinishIsSerialized(start, sys, n, fails);
      n' := n + 1;
  }

  ghost predicate Possible<E, S, R>(sys: System<E, S, R>, events: seq<Event<E, S, R>>)
    decreases |events|
  {
    events == [] || (Enabled(sys, events[0]) && Possible(Next(sys, events[0]), events[1..]))
  }

  ghost function After<E, S, R>(sys: System<E, S, R>, events: seq<Event<E, S, R>>): System<E, S, R>
    requires Possible(sys, events)
    decreases |events|
  {
    if events == [] then sys else After(Next(sys, events[0]), events[1..])
  }

  lemma {:induction false} RunIsSerialized<E, S, R>(start: S, sys: System<E, S, R>, n: nat, events: seq<Event<E, S, R>>)
    returns (n': nat)
    requires Serialized(start, sys, n) && Possible(sys, events)
    ensures Serialized(start, After(sys, events), n')
    decreases |events|
  {
    n' := n;
    if events != [] {
      n' := NextIsSerialized(start, sys, n, events[0]);
      n' := RunIsSerialized(start, Next(sys, events[0]), n', events[1..]);
    }
  }

  /** Every interleaving of any calls: once all have settled, the store and every result are as if the calls had
      run one at a time in submission order, with the same failures. */
  lemma Serializable<E, S, R>(start: S, events: seq<Event<E, S, R>>, end: System<E, S, R>)
    requires Possible(Unused(start), events) && end == After(Unused(start), events)
    requires forall i :: 0 <= i < |end.calls| ==> end.calls[i].phase.Settled?
    ensures end.store == Serial(start, end.calls, |end.calls|)
    ensures ResultsAreSerial(start, end.calls, |end.calls|)
  {
    var n := RunIsSerialized(start, Unused(start), 0, events);
  }

  /** Steps left before everything submitted has settled. */
  function Remaining<E, S, R>(calls: seq<Call<E, S, R>>): nat {
    if calls == [] then 0
    else (match calls[0].phase case Waiting => 2 case Planned(_, _) => 1 case Settled(_) => 0) + Remaining(calls[1..])
  }

  lemma {:induction false} RemainingUpdate<E, S, R>(calls: seq<Call<E, S, R>>, i: nat, c: Call<E, S, R>)
    requires i < |calls|
    ensures Remaining(calls[i := c]) == Remaining(calls) - Remaining([calls[i]]) + Remaining([c])
  {
    if i == 0 {
      assert calls[0 := c][1..] == calls[1..];
    } else {
      RemainingUpdate(calls[1..], i - 1, c);
      assert calls[i := c][1..] == calls[1..][i - 1 := c];
    }
  }

  /** A failing call never blocks the later ones: in every reachable state some step of the earliest unsettled
      call is possible, whatever became of the calls before it, and every step brings the end nearer. */
  lemma NeverStuck<E, S, R>(start: S, sys: System<E, S, R>, n: nat, env: E)
    requires Serialized(start, sys, n) && n < |sys.calls|
    ensures Enabled(sys, Read(n, env, false)) || Enabled(sys, Finish(n, false))
    ensures forall e :: Enabled(sys, e) && !e.Submit? ==> Remaining(Next(sys, e).calls) < Remaining(sys.calls)
  {
    forall e | Enabled(sys, e) && !e.Submit? ensures Remaining(Next(sys, e).calls) < Remaining(sys.calls) {
      RemainingUpdate(sys.calls, e.call, Next(sys, e).calls[e.call]);
    }
  }
}
