/** The bounded audit log of src/datastore/DataStore.ts, whose appends go through a promise chain. */
module AuditQueue {
  import opened Wrappers
  import opened PromiseChain

  const MAX_EVENTS := 500

  /** `appendAuditEvent`: read the events, then overwrite them with the last 500 including the new one. */
  function Append<T>(event: T): Operation<(), seq<T>, ()> {
    (env, events) => (events, Plan(Some(LastN(events + [event], MAX_EVENTS)), ()))
  }

  /** The events of the calls that were fulfilled, in call order. */
  function Written<T>(calls: seq<Call<(), seq<T>, ()>>, events: seq<T>, n: nat): seq<T>
    requires n <= |calls| && n <= |events|
  {
    if n == 0 then []
    else Written(calls, events, n - 1)
         + if calls[n - 1].phase.Settled? && calls[n - 1].phase.outcome.Fulfilled? then [events[n - 1]] else []
  }

  lemma LastNAbsorbs<T>(s: seq<T>, e: T, n: nat)
    ensures LastN(LastN(s, n) + [e], n) == LastN(s + [e], n)
  {
  }

  /** Appending `written`, in order, to `old`: a log that nobody could write to stays as it was. */
  function Kept<T>(before: seq<T>, written: seq<T>): seq<T> {
    if written == [] then before else LastN(before + written, MAX_EVENTS)
  }

  lemma KeptGrows<T>(before: seq<T>, written: seq<T>, e: T)
    ensures LastN(Kept(before, written) + [e], MAX_EVENTS) == Kept(before, written + [e])
  {
    if written == [] {
      assert written + [e] == [e];
    } else {
      LastNAbsorbs(before + written, e, MAX_EVENTS);
      assert before + (written + [e]) == before + written + [e];
    }
  }

  lemma {:induction false} SerialAppends<T>(start: seq<T>, calls: seq<Call<(), seq<T>, ()>>, events: seq<T>, n: nat)
    requires n <= |calls| && |events| == |calls|
    requires forall i :: 0 <= i < n ==> calls[i].phase.Settled? && calls[i].operation == Append(events[i])
    ensures Serial(start, calls, n) == Kept(start, Written(calls, events, n))
  {
    if n > 0 {
      SerialAppends(start, calls, events, n - 1);
      var w := Written(calls, events, n - 1);
      KeptGrows(start, w, events[n - 1]);
      assert w + [] == w;
      assert calls[n - 1].operation == Append(events[n - 1]);
    }
  }

  /** However the appends interleave and whichever fail, once all have settled the log holds the last 500 of the
      old events followed by the successfully written ones in call order. */
  lemma AuditLogIsExact<T>(start: seq<T>, run: seq<Event<(), seq<T>, ()>>, end: System<(), seq<T>, ()>, events: seq<T>)
    requires Possible(Unused(start), run) && end == After(Unused(start), run)
    requires |events| == |end.calls|
    requires forall i :: 0 <= i < |end.calls| ==>
            end.calls[i].phase.Settled? && end.calls[i].operation == Append(events[i])
    ensures end.store == Kept(start, Written(end.calls, events, |events|))
  {
    Serializable(start, run, end);
    SerialAppends(start, end.calls, events, |events|);
  }
}
