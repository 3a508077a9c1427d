/** Reconciliation: making the engine's active schedules those of the scheduler. */
module ScheduleSync {
  import opened Common
  import opened Scaling
  import opened ScalingEngine

  type SchedulerView = map<string, Schedule>
  type EngineView = map<string, string>

  /** The calls one pass issues. */
  predicate IsCall(asScheduler: SchedulerView, asEngine: EngineView, r: Request) {
    match r
    case Scale(_, _, _) => false
    case SetActiveSchedule(app, schedule) =>
      && app in asScheduler && schedule == asScheduler[app]
      && (app !in asEngine || asEngine[app] == "" || asEngine[app] != schedule.id)
    case RemoveActiveSchedule(app, scheduleId) =>
      app in asEngine && app !in asScheduler && scheduleId == asEngine[app]
  }

  /** The two loops over the two maps; a missing engine entry reads as the empty id. */
  method Sync(asScheduler: SchedulerView, asEngine: EngineView) returns (calls: set<Request>)
    ensures forall r :: r in calls <==> IsCall(asScheduler, asEngine, r)
  {
    calls := {};
    var apps := asScheduler.Keys;
    while apps != {}
      invariant apps <= asScheduler.Keys
      invariant forall r :: r in calls <==> IsCall(asScheduler, asEngine, r) && r.SetActiveSchedule? && r.app !in apps
      decreases apps
    {
      var appId :| appId in apps;
      var scheduleId := if appId in asEngine then asEngine[appId] else "";
      if scheduleId == "" || scheduleId != asScheduler[appId].id {
        calls := calls + {SetActiveSchedule(appId, asScheduler[appId])};
      }
      apps := apps - {appId};
    }
    apps := asEngine.Keys;
    while apps != {}
      invariant apps <= asEngine.Keys
      invariant forall r :: r in calls <==>
                  IsCall(asScheduler, asEngine, r) && (r.RemoveActiveSchedule? ==> r.app !in apps)
      decreases apps
    {
      var appId :| appId in apps;
      if appId !in asScheduler {
        calls := calls + {RemoveActiveSchedule(appId, asEngine[appId])};
      }
      apps := apps - {appId};
    }
  }

  /** The ids of the engine's schedule table. */
  function Ids(schedules: map<string, Schedule>): EngineView {
    map app | app in schedules :: schedules[app].id
  }

  /** The row an app should have after a pass: none, the one it had if the ids agree, or the scheduler's. */
  function RowWanted(asScheduler: SchedulerView, before: map<string, Schedule>, app: string): Option<Schedule> {
    if app !in asScheduler then None
    else if app in before && before[app].id == asScheduler[app].id then Some(before[app])
    else Some(asScheduler[app])
  }

  /** The row a call leaves: setting the schedule that is already active leaves the row it has. */
  function RowAfter(r: Request, before: Option<Schedule>): Option<Schedule> {
    if !r.SetActiveSchedule? then None
    else if before.Some? && before.value.id == r.schedule.id then before
    else Some(r.schedule)
  }

  /** A pass issues at most one call per app, and it asks for what the scheduler wants. */
  lemma OneCallPerApp(asScheduler: SchedulerView, before: map<string, Schedule>, r: Request, q: Request)
    requires IsCall(asScheduler, Ids(before), r) && IsCall(asScheduler, Ids(before), q) && r.app == q.app
    ensures r == q && RowAfter(r, Get(before, r.app)) == RowWanted(asScheduler, before, r.app)
  {
  }

  /** An app without a call already has the row it should have. */
  lemma NoCallMeansAgreed(asScheduler: SchedulerView, before: map<string, Schedule>, app: string)
    requires forall r :: IsCall(asScheduler, Ids(before), r) ==> r.app != app
    ensures Get(before, app) == RowWanted(asScheduler, before, app)
  {
    assert app in asScheduler ==> !IsCall(asScheduler, Ids(before), SetActiveSchedule(app, asScheduler[app]));
    assert app in before ==> !IsCall(asScheduler, Ids(before), RemoveActiveSchedule(app, before[app].id));
  }

  // ----- The calls as threads of the engine -----

  /**
   * The database behind the schedule operations answers; calls to the platform, the policies and the history may all
   * fail.
   */
  ghost predicate TableReliableAt(s: State, a: Action) {
    a.Proceed? && IsBusy(s, a.t) ==>
      var stage := s.threads[a.t].stage;
      stage.Locked? || stage.DeletingSchedule? || stage.InsertingSchedule? ==> a.oracle.ok
  }

  /** The requests of the operations begun by the first i actions. */
  ghost function Begun(actions: seq<Action>, i: nat): set<Request>
    requires i <= |actions|
  {
    if i == 0 then {}
    else if actions[i - 1].Begin? then Begun(actions, i - 1) + {actions[i - 1].request}
    else Begun(actions, i - 1)
  }

  /** A pass begins only its own calls, none of them twice. */
  ghost predicate BeginsCall(asScheduler: SchedulerView, asEngine: EngineView, begun: set<Request>, a: Action) {
    a.Begin? ==> IsCall(asScheduler, asEngine, a.request) && a.request !in begun
  }

  /** The goroutines of one pass: the engine runs exactly its calls, each once, and nothing else. */
  ghost predicate RunsPass(asScheduler: SchedulerView, states: seq<State>, actions: seq<Action>)
    requires |states| == |actions| + 1
  {
    forall k :: 0 <= k < |actions| ==>
      && BeginsCall(asScheduler, Ids(states[0].schedules), Begun(actions, k), actions[k])
      && TableReliableAt(states[k], actions[k])
  }

  /** The schedule row while a call is at the given stage. */
  ghost predicate RowOk(r: Request, stage: Stage, before: Option<Schedule>, row: Option<Schedule>) {
    match stage
    case Locked(_) => row == before
    case DeletingSchedule => row == before && RowAfter(r, before) != before
    case InsertingSchedule => row == None && RowAfter(r, before) != before
    case _ => row == RowAfter(r, before)
  }

  lemma StepKeepsRow(
    r: Request, stage: Stage, before: Option<Schedule>, a: AppState, clock: int, o: Oracle, defaultSeconds: int)
    requires !r.Scale? && Fits(r, stage) && RowOk(r, stage, before, a.schedule)
    requires r.RemoveActiveSchedule? ==> before.Some? && before.value.id == r.scheduleId
    requires stage.Locked? || stage.DeletingSchedule? || stage.InsertingSchedule? ==> o.ok
    ensures var p := Do(r, a, stage, clock, o, defaultSeconds); RowOk(r, p.stage, before, p.state.schedule)
  {
  }

  /** The row of one app during a pass: as before until its call has begun, as wanted once the call is over. */
  ghost predicate AppRowOk(
    asScheduler: SchedulerView, before: map<string, Schedule>, s: State, begun: set<Request>, app: string)
  {
    && (forall r :: r in begun ==> IsCall(asScheduler, Ids(before), r))
    && (forall t :: WorksOn(s, t, app) ==>
          s.threads[t].request in begun
          && RowOk(s.threads[t].request, s.threads[t].stage, Get(before, app), Get(s.schedules, app)))
    && ((forall t :: !WorksOn(s, t, app)) ==>
          if exists r :: r in begun && r.app == app then Get(s.schedules, app) == RowWanted(asScheduler, before, app)
          else Get(s.schedules, app) == Get(before, app))
  }

  lemma RowAfterProceed(stripe: string -> nat, defaultSeconds: int, s: State, t: nat, o: Oracle, app: string)
    requires Enabled(stripe, s, Proceed(t, o))
    ensures var n, p := Next(stripe, defaultSeconds, s, Proceed(t, o)), ProgressOf(s, t, o, defaultSeconds);
            && n.threads == s.threads[t := Busy(s.threads[t].request, p.stage)]
            && Get(n.schedules, app)
               == if s.threads[t].request.app == app then p.state.schedule else Get(s.schedules, app)
  {
  }

  lemma ProceedKeepsRow(
    stripe: string -> nat, defaultSeconds: int, asScheduler: SchedulerView, before: map<string, Schedule>, s: State,
    begun: set<Request>, t: nat, o: Oracle, app: string)
    requires LocksHeld(stripe, s) && Enabled(stripe, s, Proceed(t, o)) && TableReliableAt(s, Proceed(t, o))
    requires AppRowOk(asScheduler, before, s, begun, app)
    ensures AppRowOk(asScheduler, before, Next(stripe, defaultSeconds, s, Proceed(t, o)), begun, app)
  {
    var r, stage := s.threads[t].request, s.threads[t].stage;
    var n := Next(stripe, defaultSeconds, s, Proceed(t, o));
    RowAfterProceed(stripe, defaultSeconds, s, t, o, app);
    if r.app == app {
      assert WorksOn(s, t, app) && WorksOn(n, t, app);
      StepKeepsRow(r, stage, Get(before, app), AppOf(s, app), s.clock, o, defaultSeconds);
      forall u | WorksOn(n, u, app) ensures u == t {
        assert WorksOn(s, u, app);
        MutualExclusion(stripe, s, t, u, app);
      }
    } else {
      assert forall u :: WorksOn(n, u, app) ==> WorksOn(s, u, app) && u != t;
      assert forall u :: WorksOn(s, u, app) ==> WorksOn(n, u, app);
    }
  }

  lemma BeginKeepsRow(
    stripe: string -> nat, defaultSeconds: int, asScheduler: SchedulerView, before: map<string, Schedule>, s: State,
    begun: set<Request>, t: nat, q: Request, app: string)
    requires LocksHeld(stripe, s) && Enabled(stripe, s, Begin(t, q))
    requires BeginsCall(asScheduler, Ids(before), begun, Begin(t, q))
    requires AppRowOk(asScheduler, before, s, begun, app)
    ensures AppRowOk(asScheduler, before, Next(stripe, defaultSeconds, s, Begin(t, q)), begun + {q}, app)
  {
    var n := Next(stripe, defaultSeconds, s, Begin(t, q));
    if q.app == app {
      assert forall u :: !WorksOn(s, u, app);
      forall r | r in begun ensures r.app != app {
        if r.app == app { OneCallPerApp(asScheduler, before, r, q); }
      }
      assert forall u :: WorksOn(n, u, app) <==> u == t;
      assert WorksOn(n, t, app);
    } else {
      assert forall u :: WorksOn(n, u, app) <==> WorksOn(s, u, app);
      assert (exists r :: r in begun + {q} && r.app == app) <==> exists r :: r in begun && r.app == app;
    }
  }

  lemma EndKeepsRow(
    stripe: string -> nat, defaultSeconds: int, asScheduler: SchedulerView, before: map<string, Schedule>, s: State,
    begun: set<Request>, t: nat, app: string)
    requires LocksHeld(stripe, s) && Enabled(stripe, s, End(t))
    requires AppRowOk(asScheduler, before, s, begun, app)
    ensures AppRowOk(asScheduler, before, Next(stripe, defaultSeconds, s, End(t)), begun, app)
  {
    var n := Next(stripe, defaultSeconds, s, End(t));
    if WorksOn(s, t, app) {
      forall u ensures !WorksOn(n, u, app) {
        if WorksOn(s, u, app) { MutualExclusion(stripe, s, t, u, app); }
      }
      var r := s.threads[t].request;
      OneCallPerApp(asScheduler, before, r, r);
    } else {
      assert forall u :: WorksOn(n, u, app) <==> WorksOn(s, u, app);
    }
  }

  lemma ActionKeepsRow(
    stripe: string -> nat, defaultSeconds: int, asScheduler: SchedulerView, before: map<string, Schedule>, s: State,
    begun: set<Request>, a: Action, app: string)
    requires LocksHeld(stripe, s) && Enabled(stripe, s, a) && TableReliableAt(s, a)
    requires BeginsCall(asScheduler, Ids(before), begun, a)
    requires AppRowOk(asScheduler, before, s, begun, app)
    ensures AppRowOk(asScheduler, before, Next(stripe, defaultSeconds, s, a),
                     if a.Begin? then begun + {a.request} else begun, app)
  {
    match a
    case Advance(d) =>
      var n := Next(stripe, defaultSeconds, s, a);
      assert forall u :: WorksOn(n, u, app) <==> WorksOn(s, u, app);
    case Begin(t, q) => BeginKeepsRow(stripe, defaultSeconds, asScheduler, before, s, begun, t, q, app);
    case Proceed(t, o) => ProceedKeepsRow(stripe, defaultSeconds, asScheduler, before, s, begun, t, o, app);
    case End(t) => EndKeepsRow(stripe, defaultSeconds, asScheduler, before, s, begun, t, app);
  }

  lemma {:induction false} PassKeepsRows(
    stripe: string -> nat, defaultSeconds: int, asScheduler: SchedulerView, states: seq<State>, actions: seq<Action>,
    i: nat, app: string)
    requires IsRun(stripe, defaultSeconds, states, actions) && RunsPass(asScheduler, states, actions) && i < |states|
    ensures AppRowOk(asScheduler, states[0].schedules, states[i], Begun(actions, i), app)
  {
    if i > 0 {
      var j := i - 1;
      PassKeepsRows(stripe, defaultSeconds, asScheduler, states, actions, j, app);
      RunHoldsLocks(stripe, defaultSeconds, states, actions, j);
      var begun := Begun(actions, j);
      ActionKeepsRow(stripe, defaultSeconds, asScheduler, states[0].schedules, states[j], begun, actions[j], app);
      assert Begun(actions, i) == if actions[j].Begin? then begun + {actions[j].request} else begun;
      assert states[i] == Next(stripe, defaultSeconds, states[j], actions[j]);
    }
  }

  /**
   * For every interleaving of the statements of a pass's calls: once every call has begun and none is still at work,
   * the engine's schedules are exactly the scheduler's, even if every call to the platform failed; a row that already
   * had the right id has stayed, with its limits.
   */
  lemma {:induction false} PassReconciles(
    stripe: string -> nat, defaultSeconds: int, asScheduler: SchedulerView, states: seq<State>, actions: seq<Action>)
    requires IsRun(stripe, defaultSeconds, states, actions) && RunsPass(asScheduler, states, actions)
    requires forall r :: IsCall(asScheduler, Ids(states[0].schedules), r) ==> r in Begun(actions, |actions|)
    requires forall t :: !IsBusy(states[|actions|], t)
    ensures var before := states[0].schedules;
            states[|actions|].schedules
            == map app | app in asScheduler ::
                 if app in before && before[app].id == asScheduler[app].id then before[app] else asScheduler[app]
  {
    var before, last := states[0].schedules, states[|actions|];
    forall app ensures Get(last.schedules, app) == RowWanted(asScheduler, before, app) {
      PassKeepsRows(stripe, defaultSeconds, asScheduler, states, actions, |actions|, app);
      assert forall t :: !WorksOn(last, t, app);
      if forall r :: r in Begun(actions, |actions|) ==> r.app != app {
        NoCallMeansAgreed(asScheduler, before, app);
      }
    }
    assert forall app :: app in last.schedules <==> Get(last.schedules, app).Some?;
    assert forall app :: app in last.schedules ==> Get(last.schedules, app) == Some(last.schedules[app]);
  }

  /** A pass right after a reconciling one is silent, exactly when no wanted schedule has the empty id. */
  lemma {:induction false} NextPassIsSilent(asScheduler: SchedulerView)
    ensures (forall r :: !IsCall(asScheduler, Ids(asScheduler), r))
            <==> forall app :: app in asScheduler ==> asScheduler[app].id != ""
  {
    forall app | app in asScheduler && asScheduler[app].id == ""
      ensures IsCall(asScheduler, Ids(asScheduler), SetActiveSchedule(app, asScheduler[app]))
    {
    }
  }
}
