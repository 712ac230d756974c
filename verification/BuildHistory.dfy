/** Conservation of schedule calls in the build queue, over every run of the scheduler.

Calls of `scheduleDeployNewVersion` are numbered. A ticket remembers which call first enqueued a build and
which call last gave it its source; the history keeps every ticket that has started. Forgetting the call
numbers gives back the scheduler's own state. */
module BuildHistory {
  import opened BuildScheduling

  datatype Ticket = Ticket(app: string, source: Source, first: nat, latest: nat)

  /** A ticket taken from the queue, and how many calls had been made by then. */
  datatype Start = Start(ticket: Ticket, calls: nat)

  /** Call `call`'s source gave way to that of call `next`. */
  datatype Replacement = Replacement(call: nat, next: nat)

  /** `direct` and `dequeued` are the tickets that started, on the call itself and from the queue; `started` are all of
      them in the order in which they started. */
  datatype History = History(flags: map<string, bool>, queue: seq<Ticket>, running: multiset<string>, pending: nat,
                             calls: seq<QueuedBuild>, direct: seq<Ticket>, dequeued: seq<Start>,
                             replaced: seq<Replacement>, started: seq<Ticket>)

  const BEGINNING := History(map[], [], multiset{}, 0, [], [], [], [], [])

  function Builds(queue: seq<Ticket>): seq<QueuedBuild> {
    seq(|queue|, i requires 0 <= i < |queue| => QueuedBuild(queue[i].app, queue[i].source))
  }

  function Forget(h: History): State {
    State(h.flags, Builds(h.queue), h.running, h.pending)
  }

  function Record(h: History, e: Event): History
    requires Enabled(Forget(h), e)
  {
    match e
    case Scheduled(app, source) =>
      var n := |h.calls|;
      var k := h.(flags := h.flags[app := true], calls := h.calls + [QueuedBuild(app, source)]);
      var i := IndexOf(Builds(h.queue), app);
      if !AnyFlagged(h.flags) then
        k.(running := h.running + multiset{app}, direct := h.direct + [Ticket(app, source, n, n)],
           started := h.started + [Ticket(app, source, n, n)])
      else if i < |h.queue| then
        k.(queue := h.queue[i := Ticket(app, source, h.queue[i].first, n)],
           replaced := h.replaced + [Replacement(h.queue[i].latest, n)])
      else k.(queue := h.queue + [Ticket(app, source, n, n)])
    case Reported(app, first) =>
      h.(flags := h.flags[app := false], pending := h.pending + 1,
         running := if first then h.running - multiset{app} else h.running)
    case Dequeued =>
      if h.queue == [] then h.(pending := h.pending - 1)
      else h.(queue := h.queue[1..], running := h.running + multiset{h.queue[0].app}, pending := h.pending - 1,
              dequeued := h.dequeued + [Start(h.queue[0], |h.calls|)], started := h.started + [h.queue[0]])
  }

  /** The history only adds memory: by its definition it makes the scheduler's own moves. */
  lemma RecordIsNext(h: History, e: Event)
    requires Enabled(Forget(h), e)
    ensures Forget(Record(h, e)) == Next(Forget(h), e)
  {
  }

  // ---------------------------------------------------------------------------------------------
  // The history is that of the class
  // ---------------------------------------------------------------------------------------------

  /** The history tells of this scheduler: its state without the call numbers, and the builds it has started. */
  ghost predicate TellsOf(h: History, manager: ServiceManager)
    reads manager
  {
    Forget(h) == manager.Abstract() && Builds(h.started) == manager.started
  }

  /** One event, by the method that handles it, is one step of the history. */
  method Handle(manager: ServiceManager, e: Event, ghost h: History)
    requires TellsOf(h, manager) && Enabled(Forget(h), e)
    modifies manager
    ensures TellsOf(Record(h, e), manager)
  {
    RecordIsNext(h, e);
    RecordStarts(h, e);
    match e
    case Scheduled(app, source) => manager.ScheduleDeployNewVersion(app, source);
    case Reported(app, first) => manager.OnBuildFinished(app, first);
    case Dequeued => manager.DequeueAndStart();
  }

  /** What an event starts: a call that finds no flag set its own build, a dequeue the head of the queue. */
  lemma RecordStarts(h: History, e: Event)
    requires Enabled(Forget(h), e)
    ensures Builds(Record(h, e).started)
         == Builds(h.started)
            + match e
              case Scheduled(app, source) => if AnyFlagged(h.flags) then [] else [QueuedBuild(app, source)]
              case Reported(_, _) => []
              case Dequeued => if h.queue == [] then [] else [Builds(h.queue)[0]]
  {
  }

  /** Any run of events, by the methods, from any state the history tells of. */
  method HandleAll(manager: ServiceManager, events: seq<Event>, ghost h: History)
    requires TellsOf(h, manager) && Possible(h, events)
    modifies manager
    ensures TellsOf(Recorded(h, events), manager)
  {
    ghost var k := h;
    for i := 0 to |events|
      invariant TellsOf(k, manager) && Possible(k, events[i..]) && Recorded(k, events[i..]) == Recorded(h, events)
    {
      assert events[i..][1..] == events[i + 1..];
      Handle(manager, events[i], k);
      k := Record(k, events[i]);
    }
  }

  /** The builds started are those started on a call and those taken from the queue, each kind in its order. */
  ghost predicate Merged(started: seq<Ticket>, direct: seq<Ticket>, dequeued: seq<Start>) {
    if started == [] then direct == [] && dequeued == []
    else
      var (rest, last) := (started[..|started| - 1], started[|started| - 1]);
      || (direct != [] && direct[|direct| - 1] == last && Merged(rest, direct[..|direct| - 1], dequeued))
      || (dequeued != [] && dequeued[|dequeued| - 1].ticket == last
          && Merged(rest, direct, dequeued[..|dequeued| - 1]))
  }

  lemma RecordMerges(h: History, e: Event)
    requires Merged(h.started, h.direct, h.dequeued) && Enabled(Forget(h), e)
    ensures var k := Record(h, e); Merged(k.started, k.direct, k.dequeued)
  {
    var k := Record(h, e);
    if k.started != h.started {
      assert k.started[..|k.started| - 1] == h.started;
      if k.direct != h.direct {
        assert k.direct[..|k.direct| - 1] == h.direct && k.dequeued == h.dequeued;
      } else {
        assert k.dequeued[..|k.dequeued| - 1] == h.dequeued;
      }
    }
  }

  lemma {:induction false} StartedIsMerged(h: History, events: seq<Event>)
    requires Merged(h.started, h.direct, h.dequeued) && Possible(h, events)
    ensures var k := Recorded(h, events); Merged(k.started, k.direct, k.dequeued)
    decreases |events|
  {
    if events != [] {
      RecordMerges(h, events[0]);
      StartedIsMerged(Record(h, events[0]), events[1..]);
    }
  }

  // ---------------------------------------------------------------------------------------------
  // Conservation
  // ---------------------------------------------------------------------------------------------

  function Latest(tickets: seq<Ticket>): seq<nat> {
    seq(|tickets|, i requires 0 <= i < |tickets| => tickets[i].latest)
  }

  function LatestStarted(starts: seq<Start>): seq<nat> {
    seq(|starts|, i requires 0 <= i < |starts| => starts[i].ticket.latest)
  }

  function Gone(replaced: seq<Replacement>): seq<nat> {
    seq(|replaced|, i requires 0 <= i < |replaced| => replaced[i].call)
  }

  function Upto(n: nat): seq<nat> {
    seq(n, i requires 0 <= i < n => i)
  }

  /** Every call so far, once for each way in which it is accounted for. */
  function Fates(h: History): multiset<nat> {
    Total(Latest(h.direct), LatestStarted(h.dequeued), Latest(h.queue), Gone(h.replaced))
  }

  function Total(direct: seq<nat>, dequeued: seq<nat>, queued: seq<nat>, gone: seq<nat>): multiset<nat> {
    multiset(direct) + multiset(dequeued) + multiset(queued) + multiset(gone)
  }

  /** A ticket's app and source are those of the call it carries, and its first call was for the same app. */
  ghost predicate Honest(t: Ticket, calls: seq<QueuedBuild>) {
    && t.first <= t.latest < |calls|
    && calls[t.first].appName == t.app
    && calls[t.latest] == QueuedBuild(t.app, t.source)
  }

  /** Each call so far is accounted for once. */
  ghost predicate Accounted(h: History) {
    Fates(h) == multiset(Upto(|h.calls|))
  }

  ghost predicate AllHonest(h: History) {
    && (forall t :: t in h.direct ==> Honest(t, h.calls) && t.first == t.latest)
    && (forall s :: s in h.dequeued ==> Honest(s.ticket, h.calls))
    && (forall t :: t in h.queue ==> Honest(t, h.calls))
    && (forall r :: r in h.replaced ==>
          r.call < r.next < |h.calls| && h.calls[r.call].appName == h.calls[r.next].appName)
  }

  ghost predicate Conserved(h: History) {
    Accounted(h) && AllHonest(h) && Ordered(h)
  }

  /** The first calls of all tickets that ever entered the queue: those that left it, then those still in it. */
  function Line(h: History): seq<nat> {
    seq(|h.dequeued|, i requires 0 <= i < |h.dequeued| => h.dequeued[i].ticket.first)
    + seq(|h.queue|, i requires 0 <= i < |h.queue| => h.queue[i].first)
  }

  /** Queued apps are pairwise distinct, and builds leave the queue in the order in which they entered it. */
  ghost predicate Ordered(h: History) {
    && (forall i, j :: 0 <= i < j < |h.queue| ==> h.queue[i].app != h.queue[j].app)
    && (forall i, j :: 0 <= i < j < |Line(h)| ==> Line(h)[i] < Line(h)[j])
    && (forall i :: 0 <= i < |Line(h)| ==> Line(h)[i] < |h.calls|)
  }

  lemma UptoGrows(n: nat)
    ensures multiset(Upto(n + 1)) == multiset(Upto(n)) + multiset{n}
  {
    assert Upto(n + 1) == Upto(n) + [n];
  }

  lemma OneMore(a: seq<nat>, b: seq<nat>, c: seq<nat>, d: seq<nat>, n: nat)
    ensures Total(a + [n], b, c, d) == Total(a, b, c, d) + multiset{n}
    ensures Total(a, b, c + [n], d) == Total(a, b, c, d) + multiset{n}
  {
  }

  lemma Exchanged(a: seq<nat>, b: seq<nat>, c: seq<nat>, d: seq<nat>, i: nat, n: nat)
    requires i < |c|
    ensures Total(a, b, c[i := n], d + [c[i]]) == Total(a, b, c, d) + multiset{n}
  {
    assert c[i] in c && multiset(c[i := n]) == multiset(c) - multiset{c[i]} + multiset{n};
  }

  lemma Moved(a: seq<nat>, b: seq<nat>, x: nat, c: seq<nat>, d: seq<nat>)
    ensures Total(a, b + [x], c, d) == Total(a, b, [x] + c, d)
  {
  }

  /** The four lists that account for the calls. */
  ghost predicate Lists(h: History, direct: seq<nat>, dequeued: seq<nat>, queued: seq<nat>, gone: seq<nat>) {
    && Latest(h.direct) == direct && LatestStarted(h.dequeued) == dequeued
    && Latest(h.queue) == queued && Gone(h.replaced) == gone
  }

  /** One more call, and one more entry for it in the lists. */
  lemma OneMoreAccounts(h: History, k: History, total: multiset<nat>)
    requires Accounted(h) && |k.calls| == |h.calls| + 1
    requires total == Fates(h) && Fates(k) == total + multiset{|h.calls|}
    ensures Accounted(k)
  {
    UptoGrows(|h.calls|);
  }

  lemma DirectAccounts(h: History, app: string, source: Source, a: seq<nat>, b: seq<nat>, c: seq<nat>, d: seq<nat>)
    requires Lists(h, a, b, c, d) && Accounted(h) && !AnyFlagged(h.flags)
    ensures Accounted(Record(h, Scheduled(app, source)))
  {
    var (k, n) := (Record(h, Scheduled(app, source)), |h.calls|);
    assert Lists(k, a + [n], b, c, d);
    OneMore(a, b, c, d, n);
    OneMoreAccounts(h, k, Total(a, b, c, d));
  }

  lemma ReplaceAccounts(h: History, app: string, source: Source, a: seq<nat>, b: seq<nat>, c: seq<nat>, d: seq<nat>)
    requires Lists(h, a, b, c, d) && Accounted(h) && AnyFlagged(h.flags) && IndexOf(Builds(h.queue), app) < |h.queue|
    ensures Accounted(Record(h, Scheduled(app, source)))
  {
    var (k, n) := (Record(h, Scheduled(app, source)), |h.calls|);
    var i := IndexOf(Builds(h.queue), app);
    assert |c| == |h.queue| && Lists(k, a, b, c[i := n], d + [c[i]]);
    Exchanged(a, b, c, d, i, n);
    OneMoreAccounts(h, k, Total(a, b, c, d));
  }

  lemma AppendAccounts(h: History, app: string, source: Source, a: seq<nat>, b: seq<nat>, c: seq<nat>, d: seq<nat>)
    requires Lists(h, a, b, c, d) && Accounted(h) && AnyFlagged(h.flags) && IndexOf(Builds(h.queue), app) == |h.queue|
    ensures Accounted(Record(h, Scheduled(app, source)))
  {
    var (k, n) := (Record(h, Scheduled(app, source)), |h.calls|);
    assert Lists(k, a, b, c + [n], d);
    OneMore(a, b, c, d, n);
    OneMoreAccounts(h, k, Total(a, b, c, d));
  }

  lemma ScheduleAccounts(h: History, app: string, source: Source)
    requires Accounted(h)
    ensures Accounted(Record(h, Scheduled(app, source)))
  {
    var (a, b, c, d) := (Latest(h.direct), LatestStarted(h.dequeued), Latest(h.queue), Gone(h.replaced));
    if !AnyFlagged(h.flags) {
      DirectAccounts(h, app, source, a, b, c, d);
    } else if IndexOf(Builds(h.queue), app) < |h.queue| {
      ReplaceAccounts(h, app, source, a, b, c, d);
    } else {
      AppendAccounts(h, app, source, a, b, c, d);
    }
  }

  lemma DequeueAccounts(h: History)
    requires Accounted(h) && h.pending > 0
    ensures Accounted(Record(h, Dequeued))
  {
    if h.queue != [] {
      var (a, b, c, d) := (Latest(h.direct), LatestStarted(h.dequeued), Latest(h.queue), Gone(h.replaced));
      var k := Record(h, Dequeued);
      assert c == [c[0]] + c[1..] && Lists(k, a, b + [c[0]], c[1..], d);
      Moved(a, b, c[0], c[1..], d);
      assert Fates(k) == Fates(h);
    }
  }

  lemma RecordAccounts(h: History, e: Event)
    requires Accounted(h) && Enabled(Forget(h), e)
    ensures Accounted(Record(h, e))
  {
    match e
    case Scheduled(app, source) => ScheduleAccounts(h, app, source);
    case Reported(app, first) =>
    case Dequeued => DequeueAccounts(h);
  }

  lemma RecordIsHonest(h: History, e: Event)
    requires AllHonest(h) && Enabled(Forget(h), e)
    ensures AllHonest(Record(h, e))
  {
    var k := Record(h, e);
    match e
    case Scheduled(app, source) =>
      var call := QueuedBuild(app, source);
      var i := IndexOf(Builds(h.queue), app);
      assert forall t :: Honest(t, h.calls) ==> Honest(t, h.calls + [call]);
      if AnyFlagged(h.flags) && i < |h.queue| {
        assert h.queue[i] in h.queue && h.queue[i].app == app;
        assert Honest(k.queue[i], k.calls);
        forall t | t in k.queue ensures t == k.queue[i] || t in h.queue {}
      }
    case Reported(app, first) =>
    case Dequeued =>
      if h.queue != [] {
        assert h.queue[0] in h.queue;
        assert forall t :: t in k.queue ==> t in h.queue;
      }
  }

  lemma ScheduleKeepsOrder(h: History, app: string, source: Source)
    requires Ordered(h)
    ensures Ordered(Record(h, Scheduled(app, source)))
  {
    var (k, i) := (Record(h, Scheduled(app, source)), IndexOf(Builds(h.queue), app));
    assert forall j :: 0 <= j < |h.queue| ==> Builds(h.queue)[j].appName == h.queue[j].app;
    if AnyFlagged(h.flags) && i == |h.queue| {
      assert Line(k) == Line(h) + [|h.calls|];
    } else {
      assert Line(k) == Line(h);
    }
  }

  lemma DequeueKeepsOrder(h: History)
    requires Ordered(h) && h.pending > 0
    ensures Ordered(Record(h, Dequeued))
  {
    assert Line(Record(h, Dequeued)) == Line(h);
  }

  lemma RecordKeepsOrder(h: History, e: Event)
    requires Ordered(h) && Enabled(Forget(h), e)
    ensures Ordered(Record(h, e))
  {
    match e
    case Scheduled(app, source) => ScheduleKeepsOrder(h, app, source);
    case Reported(app, first) => assert Line(Record(h, e)) == Line(h);
    case Dequeued => DequeueKeepsOrder(h);
  }

  lemma {:induction false} RecordConserves(h: History, e: Event)
    requires Conserved(h) && Enabled(Forget(h), e)
    ensures Conserved(Record(h, e))
  {
    RecordAccounts(h, e);
    RecordIsHonest(h, e);
    RecordKeepsOrder(h, e);
  }

  ghost predicate Possible(h: History, events: seq<Event>)
    decreases |events|
  {
    events == [] || (Enabled(Forget(h), events[0]) && Possible(Record(h, events[0]), events[1..]))
  }

  function Recorded(h: History, events: seq<Event>): History
    requires Possible(h, events)
    decreases |events|
  {
    if events == [] then h else Recorded(Record(h, events[0]), events[1..])
  }

  lemma {:induction false} HistoryInvariants(h: History, events: seq<Event>)
    requires Conserved(h) && Possible(h, events)
    ensures Conserved(Recorded(h, events))
    decreases |events|
  {
    if events != [] {
      RecordConserves(h, events[0]);
      HistoryInvariants(Record(h, events[0]), events[1..]);
    }
  }

  /** In every run whatever, disciplined or not: each schedule call has started a build, or is the one a queued
      build will start with, or was replaced by a later call for the same app, and exactly one of these; queued
      apps are distinct; queued builds start first in, first out, each with the source of its latest call. */
  lemma EveryCallHasOneFate(events: seq<Event>, h: History, call: nat)
    requires Possible(BEGINNING, events) && h == Recorded(BEGINNING, events) && call < |h.calls|
    ensures multiset(Latest(h.direct))[call] + multiset(LatestStarted(h.dequeued))[call]
            + multiset(Latest(h.queue))[call] + multiset(Gone(h.replaced))[call] == 1
    ensures AllHonest(h) && Ordered(h)
  {
    assert Upto(0) == [] && Fates(BEGINNING) == multiset{};
    HistoryInvariants(BEGINNING, events);
    OnceUpto(|h.calls|, call);
  }

  lemma {:induction false} OnceUpto(n: nat, i: nat)
    requires i < n
    ensures multiset(Upto(n))[i] == 1
  {
    UptoGrows(n - 1);
    if i == n - 1 {
      assert i !in Upto(n - 1);
    } else {
      OnceUpto(n - 1, i);
    }
  }

  // ---------------------------------------------------------------------------------------------
  // A queued build starts with the last source scheduled for it
  // ---------------------------------------------------------------------------------------------

  /** No call for the ticket's app among the first `n`, since it was enqueued, is later than the ticket's own. */
  ghost predicate UpToDate(t: Ticket, calls: seq<QueuedBuild>, n: nat)
    requires n <= |calls|
  {
    forall i :: t.first <= i < n && calls[i].appName == t.app ==> i <= t.latest
  }

  ghost predicate LastSource(h: History) {
    && (forall t :: t in h.queue ==> UpToDate(t, h.calls, |h.calls|))
    && (forall s :: s in h.dequeued ==> s.calls <= |h.calls| && UpToDate(s.ticket, h.calls, s.calls))
  }

  lemma QueuedStaysUpToDate(h: History, app: string, source: Source, j: nat)
    requires LastSource(h) && Ordered(h) && AnyFlagged(h.flags)
    requires var k := Record(h, Scheduled(app, source)); j < |k.queue|
    ensures var k := Record(h, Scheduled(app, source)); UpToDate(k.queue[j], k.calls, |h.calls| + 1)
  {
    var i := IndexOf(Builds(h.queue), app);
    if j < |h.queue| {
      assert h.queue[j] in h.queue && UpToDate(h.queue[j], h.calls, |h.calls|);
      assert Builds(h.queue)[j].appName == h.queue[j].app;
      assert j != i ==> h.queue[j].app != app by {
        if i < j { assert Builds(h.queue)[i].appName == h.queue[i].app; }
      }
    }
  }

  /** A schedule call leaves a queued source behind only when no flag is set although the app is queued: the
      call then starts the app's build at once and the older source stays in the queue. */
  lemma ScheduleKeepsLastSource(h: History, app: string, source: Source)
    requires LastSource(h) && Conserved(h)
    ensures LastSource(Record(h, Scheduled(app, source)))
       <==> AnyFlagged(h.flags) || !Queued(Builds(h.queue), app)
  {
    var k := Record(h, Scheduled(app, source));
    var n := |h.calls|;
    forall s | s in h.dequeued ensures UpToDate(s.ticket, k.calls, s.calls) {}
    if AnyFlagged(h.flags) {
      forall t | t in k.queue ensures UpToDate(t, k.calls, n + 1) {
        var j :| 0 <= j < |k.queue| && k.queue[j] == t;
        QueuedStaysUpToDate(h, app, source, j);
      }
    } else {
      forall t | t in h.queue ensures UpToDate(t, k.calls, n + 1) <==> t.app != app {
        assert k.calls[n].appName == app;
        assert UpToDate(t, h.calls, n);
      }
      if Queued(Builds(h.queue), app) {
        var j :| 0 <= j < |h.queue| && Builds(h.queue)[j].appName == app;
        assert h.queue[j] in h.queue && h.queue[j].app == app;
      } else {
        forall t | t in h.queue ensures t.app != app {
          var j :| 0 <= j < |h.queue| && h.queue[j] == t;
          assert Builds(h.queue)[j].appName == t.app;
        }
      }
    }
  }

  lemma DequeueKeepsLastSource(h: History, e: Event)
    requires LastSource(h) && !e.Scheduled? && Enabled(Forget(h), e)
    ensures LastSource(Record(h, e))
  {
  }

  /** Under the scheduler's invariant the guard of that branch never meets a queued app, so in every safe run a
      build that leaves the queue carries the last source scheduled for it while it waited. */
  lemma {:induction false} SafeRunsStartLastSource(h: History, events: seq<Event>)
    requires Good(Forget(h)) && Conserved(h) && LastSource(h) && SafeRun(Forget(h), events)
    ensures Possible(h, events) && NoStaleCall(h, events)
    ensures LastSource(Recorded(h, events)) && Forget(Recorded(h, events)) == After(Forget(h), events)
    decreases |events|
  {
    if events != [] {
      var e := events[0];
      RecordIsNext(h, e);
      SafeKeepsGood(Forget(h), e);
      RecordConserves(h, e);
      if e.Scheduled? {
        assert Queued(Builds(h.queue), e.app) ==> Flagged(h.flags, e.app);
        ScheduleKeepsLastSource(h, e.app, e.source);
      } else {
        DequeueKeepsLastSource(h, e);
      }
      SafeRunsStartLastSource(Record(h, e), events[1..]);
    }
  }

  // ---------------------------------------------------------------------------------------------
  // Exactly when an older source starts after a newer one
  // ---------------------------------------------------------------------------------------------

  /** A call that finds no flag set although its app is queued: it starts its own build and leaves the queued source. */
  predicate StaleCall(h: History, e: Event) {
    e.Scheduled? && !AnyFlagged(h.flags) && Queued(Builds(h.queue), e.app)
  }

  /** A possible run without stale calls. */
  ghost predicate NoStaleCall(h: History, events: seq<Event>)
    decreases |events|
  {
    events == [] ||
    (Enabled(Forget(h), events[0]) && !StaleCall(h, events[0]) && NoStaleCall(Record(h, events[0]), events[1..]))
  }

  /** Each queued build that has started did so with the last source scheduled for it while it waited. */
  ghost predicate StartsAreUpToDate(h: History) {
    forall s :: s in h.dequeued ==> s.calls <= |h.calls| && UpToDate(s.ticket, h.calls, s.calls)
  }

  /** Every continuation without stale calls, whatever else it does, starts queued builds with their last source. */
  ghost predicate NeverStale(h: History) {
    forall events :: Possible(h, events) && NoStaleCall(h, events) ==> StartsAreUpToDate(Recorded(h, events))
  }

  lemma RecordKeepsLastSource(h: History, e: Event)
    requires Conserved(h) && LastSource(h) && Enabled(Forget(h), e)
    ensures LastSource(Record(h, e)) <==> !StaleCall(h, e)
  {
    if e.Scheduled? {
      ScheduleKeepsLastSource(h, e.app, e.source);
    } else {
      DequeueKeepsLastSource(h, e);
    }
  }

  /** A possible run, started and queued builds having their last source at every moment. */
  ghost predicate AlwaysLastSource(h: History, events: seq<Event>)
    decreases |events|
  {
    LastSource(h) &&
    (events == [] || (Enabled(Forget(h), events[0]) && AlwaysLastSource(Record(h, events[0]), events[1..])))
  }

  /** Over every run whatever: started and queued builds have the last source scheduled for them, at every moment, if
      and only if no call was stale. */
  lemma {:induction false} LastSourceOverRuns(h: History, events: seq<Event>)
    requires Conserved(h) && LastSource(h) && Possible(h, events)
    ensures AlwaysLastSource(h, events) <==> NoStaleCall(h, events)
    ensures NoStaleCall(h, events) ==> LastSource(Recorded(h, events))
    decreases |events|
  {
    if events != [] {
      RecordConserves(h, events[0]);
      RecordKeepsLastSource(h, events[0]);
      if !StaleCall(h, events[0]) {
        LastSourceOverRuns(Record(h, events[0]), events[1..]);
      }
    }
  }

  /** Nothing but running builds reporting, each once, and dequeues. */
  ghost predicate OnlyReports(events: seq<Event>) {
    forall e :: e in events ==> e.Dequeued? || (e.Reported? && e.first)
  }

  lemma {:induction false} ReportsAreNotStale(h: History, events: seq<Event>)
    requires Possible(h, events) && OnlyReports(events)
    ensures NoStaleCall(h, events)
    decreases |events|
  {
    if events != [] {
      assert events[0] in events && forall e :: e in events[1..] ==> e in events;
      ReportsAreNotStale(Record(h, events[0]), events[1..]);
    }
  }

  lemma PossibleCons(h: History, e: Event, rest: seq<Event>)
    requires Enabled(Forget(h), e) && Possible(Record(h, e), rest)
    ensures Possible(h, [e] + rest) && Recorded(h, [e] + rest) == Recorded(Record(h, e), rest)
  {
    assert ([e] + rest)[1..] == rest;
  }

  /** The history once a running build has reported and the microtask has taken the next one. */
  function MovedOn(h: History, app: string): History
    requires app in h.running
  {
    Record(Record(h, Reported(app, true)), Dequeued)
  }

  /** Reports and dequeues alone bring a stale ticket to the queue's head and start it. */
  lemma {:induction false} StaleTicketStarts(h: History, running: string, j: nat) returns (events: seq<Event>)
    requires running in h.running && j < |h.queue| && !UpToDate(h.queue[j], h.calls, |h.calls|)
    ensures Possible(h, events) && OnlyReports(events) && !StartsAreUpToDate(Recorded(h, events))
    decreases j
  {
    var (e, k) := (Reported(running, true), MovedOn(h, running));
    var rest := [];
    if j == 0 {
      assert k.dequeued[|h.dequeued|] == Start(h.queue[0], |h.calls|);
    } else {
      rest := StaleTicketStarts(k, h.queue[0].app, j - 1);
    }
    PossibleCons(Record(h, e), Dequeued, rest);
    PossibleCons(h, e, [Dequeued] + rest);
    events := [e] + ([Dequeued] + rest);
  }

  /** A stale call leaves a ticket behind that such a continuation starts. */
  lemma StaleCallStartsStale(h: History, e: Event) returns (events: seq<Event>)
    requires Conserved(h) && Enabled(Forget(h), e) && StaleCall(h, e)
    ensures Possible(Record(h, e), events) && OnlyReports(events)
    ensures !StartsAreUpToDate(Recorded(Record(h, e), events))
  {
    var k := Record(h, e);
    var j :| 0 <= j < |Builds(h.queue)| && Builds(h.queue)[j].appName == e.app;
    assert h.queue[j] in h.queue && Honest(h.queue[j], h.calls);
    assert k.calls[|h.calls|].appName == k.queue[j].app;
    events := StaleTicketStarts(k, e.app, j);
  }

  /** The call's guard is exact for what starts: an event leaves every continuation without stale calls to start
      queued builds with their last source if and only if it is not a stale call itself. */
  lemma StaleCallIsExact(h: History, e: Event)
    requires Conserved(h) && LastSource(h) && Enabled(Forget(h), e)
    ensures NeverStale(Record(h, e)) <==> !StaleCall(h, e)
  {
    var k := Record(h, e);
    if StaleCall(h, e) {
      var events := StaleCallStartsStale(h, e);
      ReportsAreNotStale(k, events);
    } else {
      RecordConserves(h, e);
      RecordKeepsLastSource(h, e);
      forall events | Possible(k, events) && NoStaleCall(k, events) ensures StartsAreUpToDate(Recorded(k, events)) {
        LastSourceOverRuns(k, events);
      }
    }
  }

  // ---------------------------------------------------------------------------------------------
  // The failing case is reachable
  // ---------------------------------------------------------------------------------------------

  function Early(a: string, b: string): seq<Event> {
    [Scheduled(a, "a1"), Scheduled(b, "b1"), Scheduled(a, "a2")]
  }

  function Middle(a: string, b: string): seq<Event> {
    [Reported(a, true), Dequeued, Scheduled(b, "b2"), Reported(b, true), Dequeued]
  }

  function Late(a: string, b: string): seq<Event> {
    [Scheduled(b, "b3"), Reported(a, true), Dequeued]
  }

  lemma {:induction false} Appended(h: History, app: string, source: Source, other: string)
    requires Flagged(h.flags, other) && forall t :: t in h.queue ==> t.app != app
    ensures var n := |h.calls|;
            Record(h, Scheduled(app, source))
            == h.(flags := h.flags[app := true], calls := h.calls + [QueuedBuild(app, source)],
                  queue := h.queue + [Ticket(app, source, n, n)])
  {
    assert forall j :: 0 <= j < |h.queue| ==> h.queue[j] in h.queue && Builds(h.queue)[j].appName == h.queue[j].app;
  }

  lemma {:induction false} StartedAtOnce(h: History, app: string, source: Source)
    requires !AnyFlagged(h.flags)
    ensures var n := |h.calls|;
            Record(h, Scheduled(app, source))
            == h.(flags := h.flags[app := true], calls := h.calls + [QueuedBuild(app, source)],
                  running := h.running + multiset{app}, direct := h.direct + [Ticket(app, source, n, n)],
                  started := h.started + [Ticket(app, source, n, n)])
  {
  }

  lemma {:induction false} PossibleSnoc(h: History, events: seq<Event>, e: Event)
    requires Possible(h, events) && Enabled(Forget(Recorded(h, events)), e)
    ensures Possible(h, events + [e]) && Recorded(h, events + [e]) == Record(Recorded(h, events), e)
    decreases |events|
  {
    if events == [] {
      assert [] + [e] == [e] && [e][1..] == [];
    } else {
      assert (events + [e])[0] == events[0] && (events + [e])[1..] == events[1..] + [e];
      PossibleSnoc(Record(h, events[0]), events[1..], e);
    }
  }

  /** The history `k` is reached by `events`. */
  ghost predicate Reached(events: seq<Event>, k: History) {
    Possible(BEGINNING, events) && Recorded(BEGINNING, events) == k
  }

  lemma ReachedNext(events: seq<Event>, k: History, e: Event)
    requires Reached(events, k) && Enabled(Forget(k), e)
    ensures Reached(events + [e], Record(k, e))
  {
    PossibleSnoc(BEGINNING, events, e);
  }

  /** A running build reports, and the head of the queue is taken in its place. */
  lemma ReachedCompletion(events: seq<Event>, k: History, app: string)
    requires Reached(events, k) && app in k.running
    ensures Reached(events + [Reported(app, true), Dequeued], MovedOn(k, app))
  {
    ReachedNext(events, k, Reported(app, true));
    ReachedNext(events + [Reported(app, true)], Record(k, Reported(app, true)), Dequeued);
    assert events + [Reported(app, true)] + [Dequeued] == events + [Reported(app, true), Dequeued];
  }

  lemma EarlyLeads(a: string, b: string) returns (k: History)
    requires a != b
    ensures Reached(Early(a, b), k)
    ensures k.flags == map[a := true, b := true] && k.queue == [Ticket(b, "b1", 1, 1), Ticket(a, "a2", 2, 2)]
    ensures k.running == multiset{a} && k.pending == 0 && k.dequeued == []
    ensures k.calls == [QueuedBuild(a, "a1"), QueuedBuild(b, "b1"), QueuedBuild(a, "a2")]
  {
    assert Reached([], BEGINNING);
    ReachedNext([], BEGINNING, Scheduled(a, "a1"));
    StartedAtOnce(BEGINNING, a, "a1");
    var h1 := Record(BEGINNING, Scheduled(a, "a1"));
    ReachedNext([] + [Scheduled(a, "a1")], h1, Scheduled(b, "b1"));
    Appended(h1, b, "b1", a);
    var h2 := Record(h1, Scheduled(b, "b1"));
    ReachedNext([] + [Scheduled(a, "a1")] + [Scheduled(b, "b1")], h2, Scheduled(a, "a2"));
    Appended(h2, a, "a2", b);
    k := Record(h2, Scheduled(a, "a2"));
    assert [] + [Scheduled(a, "a1")] + [Scheduled(b, "b1")] + [Scheduled(a, "a2")] == Early(a, b);
  }

  /** `b`'s second source waits behind `a`'s second build, which runs without a flag. */
  lemma MiddleLeads(a: string, b: string) returns (k: History)
    requires a != b
    ensures Reached(Early(a, b) + Middle(a, b), k)
    ensures k.flags == map[a := false, b := false] && k.queue == [Ticket(b, "b2", 3, 3)]
    ensures k.running == multiset{a} && k.pending == 0 && |k.calls| == 4
  {
    var h0 := EarlyLeads(a, b);
    var h1 := MovedOn(h0, a);
    ReachedCompletion(Early(a, b), h0, a);
    assert h1.queue == [Ticket(a, "a2", 2, 2)] && h1.running == multiset{b};
    var es := Early(a, b) + [Reported(a, true), Dequeued];
    ReachedNext(es, h1, Scheduled(b, "b2"));
    Appended(h1, b, "b2", b);
    var h2 := Record(h1, Scheduled(b, "b2"));
    ReachedCompletion(es + [Scheduled(b, "b2")], h2, b);
    k := MovedOn(h2, b);
    assert es + [Scheduled(b, "b2")] + [Reported(b, true), Dequeued] == Early(a, b) + Middle(a, b);
  }

  /** From a new scheduler, with every build reporting once and every report followed by its dequeue, `b`'s second
      source starts after its third has been scheduled and started: `a` was rescheduled while it ran, so that its second
      build runs without a flag, and the third call for `b` starts at once although `b` is queued. */
  lemma StaleStartIsReachable(a: string, b: string)
    requires a != b
    ensures var events := Early(a, b) + Middle(a, b) + Late(a, b);
            && Possible(BEGINNING, events)
            && var h := Recorded(BEGINNING, events);
               && |h.calls| == 5 && h.calls[4] == QueuedBuild(b, "b3") && Start(Ticket(b, "b2", 3, 3), 5) in h.dequeued
               && Ticket(b, "b3", 4, 4) in h.direct && !StartsAreUpToDate(h)
  {
    var h0 := MiddleLeads(a, b);
    var es := Early(a, b) + Middle(a, b);
    ReachedNext(es, h0, Scheduled(b, "b3"));
    StartedAtOnce(h0, b, "b3");
    var h1 := Record(h0, Scheduled(b, "b3"));
    ReachedCompletion(es + [Scheduled(b, "b3")], h1, a);
    var h2 := MovedOn(h1, a);
    assert es + [Scheduled(b, "b3")] + [Reported(a, true), Dequeued] == es + Late(a, b);
    assert h2.dequeued[|h2.dequeued| - 1] == Start(Ticket(b, "b2", 3, 3), 5);
    assert h2.direct[|h2.direct| - 1] == Ticket(b, "b3", 4, 4);
    assert h2.calls[4].appName == b;
  }
}
