/** The one-build-at-a-time scheduler of src/user/ServiceManager.ts.

`scheduleDeployNewVersion` starts a build when no flag is set and queues it otherwise. When a build reports,
`onBuildFinished` clears that app's flag at once and leaves the dequeueing to a microtask, which starts the
queue's head without setting its flag again. The three pieces of state, and the microtasks still to run, are
one transition system here. `running` holds the builds that have started and not yet reported. */
module BuildScheduling {
  import opened Wrappers

  type Source = string

  datatype QueuedBuild = QueuedBuild(appName: string, source: Source)

  datatype State = State(flags: map<string, bool>, queue: seq<QueuedBuild>, running: multiset<string>, pending: nat)

  const IDLE := State(map[], [], multiset{}, 0)

  predicate Flagged(flags: map<string, bool>, app: string) {
    app in flags && flags[app]
  }

  predicate AnyFlagged(flags: map<string, bool>) {
    exists app | app in flags :: Flagged(flags, app)
  }

  predicate Queued(queue: seq<QueuedBuild>, app: string) {
    exists i :: 0 <= i < |queue| && queue[i].appName == app
  }

  /** `queuedBuilds.find`: the first entry for the app; the queue's length if there is none. */
  function IndexOf(queue: seq<QueuedBuild>, app: string): (i: nat)
    ensures i <= |queue|
    ensures forall j :: 0 <= j < i ==> queue[j].appName != app
    ensures i < |queue| ==> queue[i].appName == app
  {
    IndexWhere(queue, (b: QueuedBuild) => b.appName == app)
  }

  // ---------------------------------------------------------------------------------------------
  // Transitions
  // ---------------------------------------------------------------------------------------------

  function Schedule(s: State, app: string, source: Source): State {
    var flags := s.flags[app := true];
    var i := IndexOf(s.queue, app);
    if !AnyFlagged(s.flags) then s.(flags := flags, running := s.running + multiset{app})
    else if i < |s.queue| then s.(flags := flags, queue := s.queue[i := QueuedBuild(app, source)])
    else s.(flags := flags, queue := s.queue + [QueuedBuild(app, source)])
  }

  /** `onBuildFinished`; `first` tells a running build's report from a repeated one. */
  function Report(s: State, app: string, first: bool): State {
    s.(flags := s.flags[app := false], pending := s.pending + 1,
       running := if first then s.running - multiset{app} else s.running)
  }

  /** One dequeueing microtask. */
  function Dequeue(s: State): State
    requires s.pending > 0
  {
    if s.queue == [] then s.(pending := s.pending - 1)
    else s.(queue := s.queue[1..], running := s.running + multiset{s.queue[0].appName}, pending := s.pending - 1)
  }

  // ---------------------------------------------------------------------------------------------
  // The class
  // ---------------------------------------------------------------------------------------------

  class ServiceManager {
    var activeOrScheduledBuilds: map<string, bool>
    var queuedBuilds: seq<QueuedBuild>
    ghost var running: multiset<string>
    ghost var pending: nat
    /** Every build ever started, in order, with the source it was started with. */
    ghost var started: seq<QueuedBuild>

    constructor ()
      ensures Abstract() == IDLE && started == []
    {
      activeOrScheduledBuilds, queuedBuilds := map[], [];
      running, pending, started := multiset{}, 0, [];
    }

    ghost function Abstract(): State
      reads this
    {
      State(activeOrScheduledBuilds, queuedBuilds, running, pending)
    }

    /** Some app whose flag is set. Which one only matters for a log line. */
    method IsAnyBuildRunning() returns (app: Option<string>)
      ensures app.None? <==> !AnyFlagged(activeOrScheduledBuilds)
      ensures app.Some? ==> Flagged(activeOrScheduledBuilds, app.value)
    {
      var todo := activeOrScheduledBuilds.Keys;
      while todo != {}
        invariant todo <= activeOrScheduledBuilds.Keys
        invariant forall a :: Flagged(activeOrScheduledBuilds, a) ==> a in todo
        decreases todo
      {
        var a :| a in todo;
        if activeOrScheduledBuilds[a] {
          return Some(a);
        }
        todo := todo - {a};
      }
      app := None;
    }

    method ScheduleDeployNewVersion(appName: string, source: Source)
      modifies this
      ensures Abstract() == Schedule(old(Abstract()), appName, source)
      ensures started == old(started) + if old(AnyFlagged(activeOrScheduledBuilds)) then []
                                        else [QueuedBuild(appName, source)]
    {
      var activeBuildAppName := IsAnyBuildRunning();
      activeOrScheduledBuilds := activeOrScheduledBuilds[appName := true];
      if activeBuildAppName.Some? {
        var existing := IndexOf(queuedBuilds, appName);
        if existing < |queuedBuilds| {
          queuedBuilds := queuedBuilds[existing := QueuedBuild(appName, source)];
          return;
        }
        queuedBuilds := queuedBuilds + [QueuedBuild(appName, source)];
        return;
      }
      StartDeployingNewVersion(appName, source);
    }

    method StartDeployingNewVersion(appName: string, source: Source)
      modifies this`running, this`started
      ensures running == old(running) + multiset{appName}
      ensures started == old(started) + [QueuedBuild(appName, source)]
    {
      running := running + multiset{appName};
      started := started + [QueuedBuild(appName, source)];
    }

    method OnBuildFinished(appName: string, ghost first: bool)
      modifies this
      ensures Abstract() == Report(old(Abstract()), appName, first)
      ensures started == old(started)
    {
      activeOrScheduledBuilds := activeOrScheduledBuilds[appName := false];
      pending := pending + 1;
      if first {
        running := running - multiset{appName};
      }
    }

    /** The microtask that `onBuildFinished` leaves behind. */
    method DequeueAndStart()
      requires pending > 0
      modifies this
      ensures Abstract() == Dequeue(old(Abstract()))
      ensures started == old(started) + if old(queuedBuilds) == [] then [] else [old(queuedBuilds)[0]]
    {
      pending := pending - 1;
      if queuedBuilds != [] {
        var newBuild := queuedBuilds[0];
        queuedBuilds := queuedBuilds[1..];
        StartDeployingNewVersion(newBuild.appName, newBuild.source);
      }
    }

    method EnsureNotBuilding(appName: string) returns (refused: bool)
      ensures refused <==> Flagged(activeOrScheduledBuilds, appName)
    {
      refused := appName in activeOrScheduledBuilds && activeOrScheduledBuilds[appName];
    }
  }

  // ---------------------------------------------------------------------------------------------
  // The invariant, and exactly which events keep it
  // ---------------------------------------------------------------------------------------------

  /** At most one build runs, the true flags are exactly the running and the queued apps, and a nonempty queue
      has exactly one build or microtask that will move it on. */
  ghost predicate Good(s: State) {
    && |s.running| <= 1
    && (forall i, j :: 0 <= i < j < |s.queue| ==> s.queue[i].appName != s.queue[j].appName)
    && (forall a :: Flagged(s.flags, a) <==> a in s.running || Queued(s.queue, a))
    && (forall i :: 0 <= i < |s.queue| ==> s.queue[i].appName !in s.running)
    && (s.queue != [] ==> |s.running| + s.pending == 1)
  }

  lemma Single(m: multiset<string>, a: string)
    requires |m| <= 1 && a in m
    ensures m == multiset{a}
  {
    assert m == multiset{a} + (m - multiset{a});
    assert |m - multiset{a}| == 0;
  }

  lemma NoneRunning(m: multiset<string>)
    ensures |m| == 0 <==> forall a :: a !in m
  {
    if |m| != 0 {
      var a :| a in m;
    }
  }

  lemma QueuedReplace(queue: seq<QueuedBuild>, i: nat, b: QueuedBuild)
    requires i < |queue| && queue[i].appName == b.appName
    ensures forall a :: Queued(queue[i := b], a) <==> Queued(queue, a)
  {
    var r := queue[i := b];
    assert forall j :: 0 <= j < |queue| ==> r[j].appName == queue[j].appName;
  }

  lemma QueuedAppend(queue: seq<QueuedBuild>, b: QueuedBuild)
    ensures forall a :: Queued(queue + [b], a) <==> Queued(queue, a) || a == b.appName
  {
    var r := queue + [b];
    assert r[|queue|] == b && forall j :: 0 <= j < |queue| ==> r[j] == queue[j];
  }

  lemma IdleState(s: State)
    requires Good(s) && !AnyFlagged(s.flags)
    ensures s.queue == [] && s.running == multiset{} && forall a :: !Flagged(s.flags, a)
  {
    assert forall a :: !Flagged(s.flags, a);
    if s.queue != [] { assert Queued(s.queue, s.queue[0].appName); }
    NoneRunning(s.running);
  }

  lemma StartKeepsGood(s: State, app: string, source: Source)
    requires Good(s) && !AnyFlagged(s.flags)
    ensures Good(Schedule(s, app, source))
  {
    IdleState(s);
    assert Schedule(s, app, source).running == multiset{app};
  }

  lemma {:induction false} ReplaceKeepsGood(s: State, app: string, source: Source)
    requires Good(s) && AnyFlagged(s.flags) && IndexOf(s.queue, app) < |s.queue|
    ensures Good(Schedule(s, app, source)) && app !in s.running
  {
    var (t, i) := (Schedule(s, app, source), IndexOf(s.queue, app));
    QueuedReplace(s.queue, i, QueuedBuild(app, source));
    assert Queued(s.queue, app);
    assert forall a :: Flagged(t.flags, a) <==> Flagged(s.flags, a);
    assert forall j :: 0 <= j < |s.queue| ==> t.queue[j].appName == s.queue[j].appName;
  }

  lemma {:induction false} AppendKeepsGood(s: State, app: string, source: Source)
    requires Good(s) && AnyFlagged(s.flags) && IndexOf(s.queue, app) == |s.queue|
    requires app !in s.running && |s.running| + s.pending == 1
    ensures Good(Schedule(s, app, source))
  {
    var t := Schedule(s, app, source);
    QueuedAppend(s.queue, QueuedBuild(app, source));
    assert forall a :: Flagged(t.flags, a) <==> Flagged(s.flags, a) || a == app;
  }

  /** Scheduling keeps the invariant exactly when the app's own build is not the running one, and no microtask
      is still to come for a build that started since the last report. */
  lemma ScheduleKeepsGood(s: State, app: string, source: Source)
    requires Good(s)
    ensures Good(Schedule(s, app, source))
       <==> app !in s.running && (s.queue == [] && |s.running| == 1 ==> s.pending == 0)
  {
    if !AnyFlagged(s.flags) {
      IdleState(s);
      StartKeepsGood(s, app, source);
    } else if IndexOf(s.queue, app) < |s.queue| {
      ReplaceKeepsGood(s, app, source);
    } else {
      if s.queue == [] {
        var a :| Flagged(s.flags, a);
        assert a in s.running;
        NoneRunning(s.running);
      }
      if app !in s.running && |s.running| + s.pending == 1 {
        AppendKeepsGood(s, app, source);
      } else {
        assert Schedule(s, app, source).queue[|s.queue|].appName == app;
      }
    }
  }

  lemma FirstReportKeepsGood(s: State, app: string)
    requires Good(s) && app in s.running
    ensures Good(Report(s, app, true)) && Report(s, app, true).running == multiset{}
  {
    Single(s.running, app);
    var t := Report(s, app, true);
    forall a ensures Flagged(t.flags, a) <==> Queued(t.queue, a) {
      assert Flagged(s.flags, a) <==> a in s.running || Queued(s.queue, a);
    }
  }

  /** A build reports twice when its image is good and the service update fails. The second report is harmless
      exactly when nothing is queued and its app's flag is no longer set. */
  lemma SecondReportKeepsGood(s: State, app: string)
    requires Good(s)
    ensures Good(Report(s, app, false)) <==> s.queue == [] && !Flagged(s.flags, app)
  {
    var t := Report(s, app, false);
    assert !Flagged(t.flags, app);
    if s.queue == [] && !Flagged(s.flags, app) {
      assert forall a :: Flagged(t.flags, a) <==> Flagged(s.flags, a);
    }
    assert Flagged(s.flags, app) <==> app in s.running || Queued(s.queue, app);
  }

  lemma DequeueKeepsGood(s: State)
    requires Good(s) && s.pending > 0
    ensures Good(Dequeue(s))
  {
    if s.queue != [] {
      var t := Dequeue(s);
      var head := s.queue[0].appName;
      NoneRunning(s.running);
      assert forall j :: 1 <= j < |s.queue| ==> s.queue[j] == s.queue[1..][j - 1];
      assert forall a :: Queued(s.queue, a) <==> a == head || Queued(s.queue[1..], a);
      assert t.running == multiset{head};
      forall a ensures Flagged(t.flags, a) <==> a in t.running || Queued(t.queue, a) {
        assert Flagged(s.flags, a) <==> Queued(s.queue, a);
      }
    }
  }

  // ---------------------------------------------------------------------------------------------
  // Runs
  // ---------------------------------------------------------------------------------------------

  datatype Event = Scheduled(app: string, source: Source) | Reported(app: string, first: bool) | Dequeued

  /** What can happen at all: a first report comes from a running build, a dequeue from a waiting microtask. */
  predicate Enabled(s: State, e: Event) {
    match e
    case Scheduled(_, _) => true
    case Reported(app, first) => first ==> app in s.running
    case Dequeued => s.pending > 0
  }

  function Next(s: State, e: Event): State
    requires Enabled(s, e)
  {
    match e
    case Scheduled(app, source) => Schedule(s, app, source)
    case Reported(app, first) => Report(s, app, first)
    case Dequeued => Dequeue(s)
  }

  /** The events a caller can recognise, beforehand, as safe. */
  predicate Safe(s: State, e: Event) {
    && Enabled(s, e)
    && match e
       case Scheduled(app, _) => app !in s.running && (s.queue == [] && |s.running| == 1 ==> s.pending == 0)
       case Reported(app, first) => first || (s.queue == [] && !Flagged(s.flags, app))
       case Dequeued => true
  }

  lemma SafeKeepsGood(s: State, e: Event)
    requires Good(s) && Enabled(s, e)
    ensures Good(Next(s, e)) <==> Safe(s, e)
  {
    match e
    case Scheduled(app, source) => ScheduleKeepsGood(s, app, source);
    case Reported(app, first) =>
      if first { FirstReportKeepsGood(s, app); } else { SecondReportKeepsGood(s, app); }
    case Dequeued => DequeueKeepsGood(s);
  }

  ghost predicate SafeRun(s: State, events: seq<Event>)
    decreases |events|
  {
    events == [] || (Safe(s, events[0]) && SafeRun(Next(s, events[0]), events[1..]))
  }

  function After(s: State, events: seq<Event>): State
    requires SafeRun(s, events)
    decreases |events|
  {
    if events == [] then s else After(Next(s, events[0]), events[1..])
  }

  /** One build at a time, over every safe run, microtask by microtask. */
  lemma {:induction false} OneBuildAtATime(s: State, events: seq<Event>)
    requires Good(s) && SafeRun(s, events)
    ensures var t := After(s, events);
            && |t.running| <= 1
            && (forall a :: Flagged(t.flags, a) <==> a in t.running || Queued(t.queue, a))
            && (t.queue != [] && t.pending == 0 ==> |t.running| == 1)
            && Good(t)
    decreases |events|
  {
    if events != [] {
      SafeKeepsGood(s, events[0]);
      OneBuildAtATime(Next(s, events[0]), events[1..]);
    }
  }

  lemma OneBuildAtATimeFromStart(events: seq<Event>)
    requires SafeRun(IDLE, events)
    ensures |After(IDLE, events).running| <= 1 && Good(After(IDLE, events))
  {
    OneBuildAtATime(IDLE, events);
  }

  // ---------------------------------------------------------------------------------------------
  // Whole turns: a report and its dequeue with nothing in between
  // ---------------------------------------------------------------------------------------------

  datatype Turn = Call(app: string, source: Source) | Completed(app: string)

  function TakeTurn(s: State, t: Turn): State {
    match t
    case Call(app, source) => Schedule(s, app, source)
    case Completed(app) => Dequeue(Report(s, app, true))
  }

  /** Each started build reports once, and no app is rescheduled while its own build is the running one. */
  ghost predicate Disciplined(s: State, turns: seq<Turn>)
    decreases |turns|
  {
    turns == [] ||
    (&& (match turns[0] case Call(app, _) => app !in s.running case Completed(app) => app in s.running)
     && Disciplined(TakeTurn(s, turns[0]), turns[1..]))
  }

  function AfterTurns(s: State, turns: seq<Turn>): State
    decreases |turns|
  {
    if turns == [] then s else AfterTurns(TakeTurn(s, turns[0]), turns[1..])
  }

  lemma {:induction false} DisciplinedTurnsStayGood(s: State, turns: seq<Turn>)
    requires Good(s) && s.pending == 0 && Disciplined(s, turns)
    ensures var t := AfterTurns(s, turns); Good(t) && t.pending == 0 && (t.queue != [] ==> |t.running| == 1)
    decreases |turns|
  {
    if turns != [] {
      TurnKeepsGood(s, turns[0]);
      DisciplinedTurnsStayGood(TakeTurn(s, turns[0]), turns[1..]);
    }
  }

  lemma TurnKeepsGood(s: State, turn: Turn)
    requires Good(s) && s.pending == 0 && Disciplined(s, [turn])
    ensures Good(TakeTurn(s, turn)) && TakeTurn(s, turn).pending == 0
  {
    match turn
    case Call(app, source) => ScheduleKeepsGood(s, app, source);
    case Completed(app) =>
      FirstReportKeepsGood(s, app);
      DequeueKeepsGood(Report(s, app, true));
  }

  lemma CompletionStartsHead(s: State, app: string)
    requires Good(s) && s.pending == 0 && app in s.running
    ensures var t := TakeTurn(s, Completed(app));
            && Good(t) && t.pending == 0
            && (if s.queue == [] then t.queue == [] && t.running == multiset{} && !AnyFlagged(t.flags)
                else t.queue == s.queue[1..] && t.running == multiset{s.queue[0].appName})
  {
    FirstReportKeepsGood(s, app);
    DequeueKeepsGood(Report(s, app, true));
    var t := TakeTurn(s, Completed(app));
    assert s.queue == [] ==> forall a :: !Queued(t.queue, a);
  }

  /** After `n` completions, counted from a state whose queue was `queue`. */
  ghost predicate Drained(t: State, queue: seq<QueuedBuild>, n: nat) {
    && n <= |queue| + 1
    && (n <= |queue| ==> t.queue == queue[n..])
    && (1 <= n <= |queue| ==> t.running == multiset{queue[n - 1].appName})
    && (n == |queue| + 1 ==> t.queue == [] && t.running == multiset{} && !AnyFlagged(t.flags))
  }

  lemma DrainedLater(t: State, queue: seq<QueuedBuild>, n: nat, first: State)
    requires queue != [] && Drained(t, queue[1..], n) && first.running == multiset{queue[0].appName}
            && (n == 0 ==> t == first)
    ensures Drained(t, queue, n + 1)
  {
  }

  /** A queue of `n` builds drains: each completion starts the next in line, and the one after the last leaves
      the scheduler idle, with every flag down. */
  lemma {:induction false} QueueDrains(s: State, turns: seq<Turn>)
    requires Good(s) && s.pending == 0 && Disciplined(s, turns)
    requires OnlyCompletions(turns)
    requires |s.running| == 1
    ensures Drained(AfterTurns(s, turns), s.queue, |turns|)
    decreases |turns|
  {
    if turns != [] {
      var t := FirstCompletion(s, turns);
      if s.queue != [] {
        QueueDrains(t, turns[1..]);
        DrainedLater(AfterTurns(t, turns[1..]), s.queue, |turns| - 1, t);
      } else {
        assert turns[1..] == [];
      }
    }
  }

  /** And the completions are there to be made: whenever the queue has a running build before it, each next completion
      is possible until the scheduler is idle, so that the queue does drain. */
  lemma {:induction false} DrainingTurns(s: State, n: nat) returns (turns: seq<Turn>)
    requires Good(s) && s.pending == 0 && |s.running| == 1 && n <= |s.queue| + 1
    ensures |turns| == n && Disciplined(s, turns) && OnlyCompletions(turns)
    ensures Drained(AfterTurns(s, turns), s.queue, n)
  {
    turns := Completions(s, n);
    QueueDrains(s, turns);
  }

  lemma {:induction false} Completions(s: State, n: nat) returns (turns: seq<Turn>)
    requires Good(s) && s.pending == 0 && |s.running| == 1 && n <= |s.queue| + 1
    ensures |turns| == n && Disciplined(s, turns) && OnlyCompletions(turns)
    decreases n
  {
    turns := [];
    if n > 0 {
      var app :| app in s.running;
      var rest := [];
      if n > 1 {
        CompletionStartsHead(s, app);
        rest := Completions(TakeTurn(s, Completed(app)), n - 1);
      }
      CompletionFirst(s, app, rest);
      turns := [Completed(app)] + rest;
    }
  }

  lemma CompletionFirst(s: State, app: string, rest: seq<Turn>)
    requires app in s.running && Disciplined(TakeTurn(s, Completed(app)), rest) && OnlyCompletions(rest)
    ensures Disciplined(s, [Completed(app)] + rest) && OnlyCompletions([Completed(app)] + rest)
  {
    assert ([Completed(app)] + rest)[1..] == rest;
  }

  ghost predicate OnlyCompletions(turns: seq<Turn>) {
    forall i :: 0 <= i < |turns| ==> turns[i].Completed?
  }

  lemma {:induction false} FirstCompletion(s: State, turns: seq<Turn>) returns (t: State)
    requires Good(s) && s.pending == 0 && Disciplined(s, turns) && OnlyCompletions(turns) && turns != []
    ensures Good(t) && t.pending == 0 && Disciplined(t, turns[1..]) && OnlyCompletions(turns[1..])
    ensures AfterTurns(s, turns) == AfterTurns(t, turns[1..])
    ensures if s.queue == [] then t.queue == [] && t.running == multiset{} && !AnyFlagged(t.flags)
            else t.queue == s.queue[1..] && t.running == multiset{s.queue[0].appName}
  {
    CompletionStartsHead(s, turns[0].app);
    t := TakeTurn(s, turns[0]);
  }

  /** Two builds are about to run at once: the last queued app's flag will be gone when its build starts. */
  ghost predicate Doomed(s: State) {
    && s.pending == 0 && s.queue != [] && |s.running| == 1
    && forall a :: Flagged(s.flags, a) ==> a in s.running || Queued(s.queue[..|s.queue| - 1], a)
  }

  lemma {:induction false} DoomedLeadsToTwo(s: State, running: string, newcomer: string) returns (turns: seq<Turn>)
    requires Doomed(s) && s.running == multiset{running}
    requires newcomer != s.queue[|s.queue| - 1].appName
    ensures Disciplined(s, turns) && |AfterTurns(s, turns).running| == 2
    decreases |s.queue|
  {
    var t := TakeTurn(s, Completed(running));
    var head := s.queue[0].appName;
    assert t.running == multiset{head};
    forall a | Flagged(t.flags, a) ensures a != running && Queued(s.queue[..|s.queue| - 1], a) {
      assert Flagged(s.flags, a);
    }
    if |s.queue| == 1 {
      turns := [Completed(running), Call(newcomer, "")];
      assert turns[1..] == [Call(newcomer, "")] && turns[1..][1..] == [];
      assert Disciplined(t, turns[1..]);
      assert AfterTurns(t, turns[1..]) == Schedule(t, newcomer, "");
    } else {
      forall a | Flagged(t.flags, a) ensures a in t.running || Queued(t.queue[..|t.queue| - 1], a) {
        var j :| 0 <= j < |s.queue| - 1 && s.queue[..|s.queue| - 1][j].appName == a;
        if j > 0 { assert t.queue[..|t.queue| - 1][j - 1].appName == a; }
      }
      var rest := DoomedLeadsToTwo(t, head, newcomer);
      turns := [Completed(running)] + rest;
      assert turns[1..] == rest;
    }
  }

  /** Rescheduling the running app is exactly what breaks the discipline: between turns, one more schedule call
      keeps every disciplined continuation to one build at a time if and only if it is for another app. */
  lemma RescheduleIsExact(s: State, app: string, source: Source)
    requires Good(s) && s.pending == 0
    ensures (forall turns :: Disciplined(Schedule(s, app, source), turns) ==>
                |AfterTurns(Schedule(s, app, source), turns).running| <= 1)
       <==> app !in s.running
  {
    var t := Schedule(s, app, source);
    if app !in s.running {
      ScheduleKeepsGood(s, app, source);
      forall turns | Disciplined(t, turns) ensures |AfterTurns(t, turns).running| <= 1 {
        DisciplinedTurnsStayGood(t, turns);
      }
    } else {
      Single(s.running, app);
      RescheduledIsQueued(s, app, source);
      RescheduledIsDoomed(s, t, app, source);
      var turns := DoomedLeadsToTwo(t, app, Other(app));
      assert Disciplined(t, turns);
    }
  }

  /** Rescheduling the running app queues it behind itself. */
  lemma RescheduledIsQueued(s: State, app: string, source: Source)
    requires Good(s) && app in s.running
    ensures var t := Schedule(s, app, source);
            && t.queue == s.queue + [QueuedBuild(app, source)] && t.running == s.running && t.pending == s.pending
            && t.flags == s.flags[app := true] && |t.running| == 1
  {
    NoneRunning(s.running);
    assert Flagged(s.flags, app);
    assert IndexOf(s.queue, app) == |s.queue|;
  }

  lemma RescheduledIsDoomed(s: State, t: State, app: string, source: Source)
    requires Good(s) && app in s.running && s.pending == 0 && t.pending == 0
    requires t.queue == s.queue + [QueuedBuild(app, source)] && t.running == s.running && |t.running| == 1
    requires t.flags == s.flags[app := true]
    ensures Doomed(t)
  {
    assert t.queue[..|t.queue| - 1] == s.queue;
    forall a | Flagged(t.flags, a) ensures a in t.running || Queued(s.queue, a) {
      assert a == app || Flagged(s.flags, a);
    }
  }

  // ---------------------------------------------------------------------------------------------
  // Which events are exactly the safe ones
  // ---------------------------------------------------------------------------------------------

  /** Some run of safe events leads from here to two builds at once. */
  ghost predicate CanStartTwo(s: State) {
    exists events :: SafeRun(s, events) && 2 <= |After(s, events).running|
  }

  lemma StepToTwo(s: State, e: Event)
    requires Safe(s, e) && CanStartTwo(Next(s, e))
    ensures CanStartTwo(s)
  {
    var rest :| SafeRun(Next(s, e), rest) && 2 <= |After(Next(s, e), rest).running|;
    SafeCons(s, e, rest);
  }

  lemma AlreadyTwo(s: State)
    requires 2 <= |s.running|
    ensures CanStartTwo(s)
  {
    assert SafeRun(s, []) && After(s, []) == s;
  }

  /** A microtask is due while a build runs and another waits. */
  lemma DequeueStartsSecond(s: State)
    requires s.pending > 0 && s.queue != [] && |s.running| == 1
    ensures CanStartTwo(s)
  {
    AlreadyTwo(Next(s, Dequeued));
    StepToTwo(s, Dequeued);
  }

  /** With no flag set, a call starts a build; then whatever is due starts beside it. */
  lemma CallAndDequeueStartTwo(s: State, newcomer: string)
    requires !AnyFlagged(s.flags) && s.pending > 0 && s.queue != [] && s.running == multiset{}
    ensures CanStartTwo(s)
  {
    var t := Next(s, Scheduled(newcomer, ""));
    assert t.running == multiset{newcomer};
    DequeueStartsSecond(t);
    StepToTwo(s, Scheduled(newcomer, ""));
  }

  lemma TwoDueStartTwo(s: State)
    requires 2 <= s.pending && 2 <= |s.queue| && s.running == multiset{}
    ensures CanStartTwo(s)
  {
    DequeueStartsSecond(Next(s, Dequeued));
    StepToTwo(s, Dequeued);
  }

  /** With no flag set beside a running build, one more call starts a second one, once no microtask is due. */
  lemma {:induction false} UnflaggedBuildIsJoined(s: State, newcomer: string)
    requires !AnyFlagged(s.flags) && s.queue == [] && |s.running| == 1 && newcomer !in s.running
    ensures CanStartTwo(s)
    decreases s.pending
  {
    if s.pending == 0 {
      AlreadyTwo(Next(s, Scheduled(newcomer, "")));
      StepToTwo(s, Scheduled(newcomer, ""));
    } else {
      UnflaggedBuildIsJoined(Next(s, Dequeued), newcomer);
      StepToTwo(s, Dequeued);
    }
  }

  function EventsOf(turns: seq<Turn>): seq<Event> {
    if turns == [] then []
    else (match turns[0]
          case Call(app, source) => [Scheduled(app, source)]
          case Completed(app) => [Reported(app, true), Dequeued]) + EventsOf(turns[1..])
  }

  /** Disciplined turns, taken event by event, are a safe run. */
  lemma {:induction false} TurnsAreSafe(s: State, turns: seq<Turn>)
    requires s.pending == 0 && Disciplined(s, turns)
    ensures SafeRun(s, EventsOf(turns)) && After(s, EventsOf(turns)) == AfterTurns(s, turns)
    decreases |turns|
  {
    if turns != [] {
      TurnsAreSafe(TakeTurn(s, turns[0]), turns[1..]);
      match turns[0]
      case Call(app, source) => SafeCons(s, Scheduled(app, source), EventsOf(turns[1..]));
      case Completed(app) => CompletionIsSafe(s, app, EventsOf(turns[1..]));
    }
  }

  lemma SafeCons(s: State, e: Event, rest: seq<Event>)
    requires Safe(s, e) && SafeRun(Next(s, e), rest)
    ensures SafeRun(s, [e] + rest) && After(s, [e] + rest) == After(Next(s, e), rest)
  {
    assert ([e] + rest)[1..] == rest;
  }

  lemma CompletionIsSafe(s: State, app: string, rest: seq<Event>)
    requires app in s.running && SafeRun(TakeTurn(s, Completed(app)), rest)
    ensures var events := [Reported(app, true), Dequeued] + rest;
            SafeRun(s, events) && After(s, events) == After(TakeTurn(s, Completed(app)), rest)
  {
    SafeCons(Report(s, app, true), Dequeued, rest);
    SafeCons(s, Reported(app, true), [Dequeued] + rest);
    assert [Reported(app, true)] + ([Dequeued] + rest) == [Reported(app, true), Dequeued] + rest;
  }

  /** A name that is not the given one. */
  function Other(app: string): (newcomer: string)
    ensures newcomer != app
  {
    app + "x"
  }

  lemma RescheduleStartsTwo(s: State, app: string, source: Source)
    requires Good(s) && app in s.running
    ensures CanStartTwo(Schedule(s, app, source))
  {
    var t := Schedule(s, app, source);
    Single(s.running, app);
    RescheduledIsQueued(s, app, source);
    if s.pending > 0 {
      DequeueStartsSecond(t);
    } else {
      RescheduledIsDoomed(s, t, app, source);
      var turns := DoomedLeadsToTwo(t, app, Other(app));
      TurnsAreSafe(t, turns);
    }
  }

  lemma SecondReportStartsTwo(s: State, app: string)
    requires Good(s) && (s.queue != [] || Flagged(s.flags, app))
    ensures CanStartTwo(Report(s, app, false))
  {
    var t := Report(s, app, false);
    if s.queue == [] {
      Single(s.running, app);
      assert forall a :: Flagged(t.flags, a) ==> a != app && Flagged(s.flags, a);
      UnflaggedBuildIsJoined(t, Other(app));
    } else if |s.running| == 1 {
      DequeueStartsSecond(t);
    } else if |s.queue| >= 2 {
      NoneRunning(s.running);
      TwoDueStartTwo(t);
    } else {
      NoneRunning(s.running);
      LoneBuildIsJoined(s, app);
    }
  }

  lemma LoneBuildIsJoined(s: State, app: string)
    requires Good(s) && |s.queue| == 1 && s.running == multiset{} && s.pending == 1
    ensures CanStartTwo(Report(s, app, false))
  {
    var t := Report(s, app, false);
    var head := s.queue[0].appName;
    if head == app {
      assert forall a :: Flagged(t.flags, a) ==> a != app && Queued(s.queue, a);
      CallAndDequeueStartTwo(t, Other(app));
    } else {
      assert Queued(s.queue, head) && Flagged(t.flags, head);
      TwoDueStartTwo(Next(t, Scheduled(Other(head), "")));
      StepToTwo(t, Scheduled(Other(head), ""));
    }
  }

  /** `Safe` is exact for the property itself: from a good state, an event leaves every safe continuation to one
      build at a time if and only if it is one of the safe ones. */
  lemma SafeIsExact(s: State, e: Event)
    requires Good(s) && Enabled(s, e)
    ensures Safe(s, e) <==> NeverTwo(Next(s, e))
  {
    var t := Next(s, e);
    if Safe(s, e) {
      SafeKeepsGood(s, e);
      forall events | SafeRun(t, events) ensures |After(t, events).running| <= 1 {
        OneBuildAtATime(t, events);
      }
    } else {
      UnsafeStartsTwo(s, e);
      var events :| SafeRun(t, events) && 2 <= |After(t, events).running|;
    }
  }

  /** Every run of safe events from here keeps to one build at a time. */
  ghost predicate NeverTwo(s: State) {
    forall events :: SafeRun(s, events) ==> |After(s, events).running| <= 1
  }

  lemma UnsafeStartsTwo(s: State, e: Event)
    requires Good(s) && Enabled(s, e) && !Safe(s, e)
    ensures CanStartTwo(Next(s, e))
  {
    match e
    case Scheduled(app, source) =>
      if app in s.running {
        RescheduleStartsTwo(s, app, source);
      } else {
        var a :| a in s.running;
        assert Flagged(s.flags, a);
        DequeueStartsSecond(Schedule(s, app, source));
      }
    case Reported(app, _) => SecondReportStartsTwo(s, app);
  }

  // ---------------------------------------------------------------------------------------------
  // Illustrations
  // ---------------------------------------------------------------------------------------------

  /** When a build reports twice and another build is waiting, the second report starts it beside the one that
      the first report started. */
  lemma DoubleReportStartsTwo(s: State, app: string)
    requires Good(s) && s.pending == 0 && s.running == multiset{app} && 2 <= |s.queue|
    ensures Dequeue(Report(TakeTurn(s, Completed(app)), app, false)).running
         == multiset{s.queue[0].appName, s.queue[1].appName}
  {
  }

  /** Splitting a report from its dequeue lets two schedule calls in, and the dequeue then starts the second
      beside the first. */
  lemma SplitTurnStartsTwo(a: string, b: string, c: string)
    requires b != c && c != a && a != b
    ensures var s := Report(Schedule(IDLE, a, ""), a, true);
            Dequeue(Schedule(Schedule(s, b, ""), c, "")).running == multiset{b, c}
  {
    var s := Report(Schedule(IDLE, a, ""), a, true);
    assert !AnyFlagged(s.flags);
    var s1 := Schedule(s, b, "");
    assert Flagged(s1.flags, b);
    assert Schedule(s1, c, "").queue == [QueuedBuild(c, "")];
  }
}
