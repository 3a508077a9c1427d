/** The scaling engine: three operations on one app's shared state, interleaved statement by statement. */
module ScalingEngine {
  import opened Common
  import opened Scaling

  datatype Schedule = Schedule(id: string, min: int, max: int, minInitial: int)
  datatype Policy = Policy(min: int, max: int)
  datatype Status = Succeeded | Failed | Ignored
  datatype ScalingType = Dynamic | Scheduled

  /**
   * A history entry. The last three fields are not in the table: when a dynamic scaling checked its cooldown, how long
   * its own lasts, and whether that has been written.
   */
  datatype Record = Record(
    app: string, scalingType: ScalingType, status: Status, oldInstances: int, newInstances: int, timestamp: int,
    checkedAt: int, coolDown: int, cooled: bool)

  datatype Request =
    | Scale(app: string, adjustment: Adjustment, coolDownSeconds: int)
    | SetActiveSchedule(app: string, schedule: Schedule)
    | RemoveActiveSchedule(app: string, scheduleId: string)

  /** What a thread that holds the lock does next. */
  datatype Stage =
    | Locked(now: int)
    | DeletingSchedule
    | InsertingSchedule
    | Fetching
    | HaveApp(now: int, found: int)
    | CheckedCooldown(now: int, found: int, checkedAt: int)
    | Setting(record: Record)
    | DeletingCooldown(record: Record)
    | InsertingCooldown(record: Record)
    | Saving(record: Record)
    | Unlocking

  /**
   * What a statement meets: whether it succeeds, whether a failing call took effect, the app's state and its policy.
   */
  datatype Oracle = Oracle(ok: bool, applied: bool, started: bool, policy: Option<Policy>)

  /** The state of one app that the lock protects. */
  datatype AppState = AppState(instances: Option<int>, schedule: Option<Schedule>, cooldown: Option<int>)

  /** The outcome of one statement; offered is the entry it tried to save, saved the entry it did save, if any. */
  datatype Progress = Progress(state: AppState, stage: Stage, offered: Option<Record>, saved: Option<Record>)

  function CoolDown(seconds: int, defaultSeconds: int): int {
    SECOND * if seconds <= 0 then defaultSeconds else seconds
  }

  function TypeOf(r: Request): ScalingType {
    if r.Scale? then Dynamic else Scheduled
  }

  function ExpireAt(r: Record): int {
    r.timestamp + r.coolDown
  }

  /** The entry that reports new instances, pending the call that sets them. */
  function Entry(
    r: Request, status: Status, found: int, next: int, now: int, checkedAt: int, defaultSeconds: int): Record
  {
    Record(r.app, TypeOf(r), status, found, next, now, checkedAt,
           if r.Scale? then CoolDown(r.coolDownSeconds, defaultSeconds) else 0, false)
  }

  /** Clamped to the limits, a count that stays is ignored; any other is set. */
  function Decide(
    r: Request, found: int, wanted: int, min: int, max: int, now: int, checkedAt: int, defaultSeconds: int): Stage
  {
    var next := Clamp(wanted, min, max);
    if next == found then Saving(Entry(r, Ignored, found, next, now, checkedAt, defaultSeconds))
    else Setting(Entry(r, Succeeded, found, next, now, checkedAt, defaultSeconds))
  }

  function FailedEntry(r: Request, found: int, now: int): Record {
    Record(r.app, TypeOf(r), Failed, found, -1, now, 0, 0, false)
  }

  function Failure(r: Request, found: int, now: int): Stage {
    Saving(FailedEntry(r, found, now))
  }

  /** Which stages an operation passes through. */
  predicate Fits(r: Request, stage: Stage) {
    && (stage.CheckedCooldown? || stage.DeletingCooldown? || stage.InsertingCooldown? ==> r.Scale?)
    && (stage.DeletingSchedule? || stage.Fetching? ==> !r.Scale?)
    && (stage.InsertingSchedule? ==> r.SetActiveSchedule?)
    && (stage.HaveApp? ==> !r.SetActiveSchedule?)
  }

  function ScaleStep(r: Request, a: AppState, stage: Stage, clock: int, o: Oracle, defaultSeconds: int): Stage
    requires r.Scale? && (stage.Locked? || stage.HaveApp? || stage.CheckedCooldown?)
  {
    match stage
    case Locked(now) =>
      if !o.ok || a.instances.None? then Failure(r, -1, now)
      else if !o.started then Saving(Entry(r, Ignored, a.instances.value, a.instances.value, now, 0, defaultSeconds))
      else HaveApp(now, a.instances.value)
    case HaveApp(now, found) =>
      if !o.ok then Failure(r, found, now)
      else if a.cooldown.Some? && clock <= a.cooldown.value
      then Saving(Entry(r, Ignored, found, found, now, 0, defaultSeconds))
      else CheckedCooldown(now, found, clock)
    case CheckedCooldown(now, found, checkedAt) =>
      var wanted := ComputeNewInstances(found, r.adjustment);
      if !o.ok || wanted.None? then Failure(r, found, now)
      else if a.schedule.Some? then
        Decide(r, found, wanted.value, a.schedule.value.min, a.schedule.value.max, now, checkedAt, defaultSeconds)
      else if o.policy.None? then Failure(r, found, now)
      else Decide(r, found, wanted.value, o.policy.value.min, o.policy.value.max, now, checkedAt, defaultSeconds)
  }

  function InitialMin(s: Schedule): int {
    if s.min > s.minInitial then s.min else s.minInitial
  }

  /** The schedule operations up to the deletion of a row, and from the fetched app to the decision. */
  function ScheduleStep(r: Request, a: AppState, stage: Stage, clock: int, o: Oracle): Stage
    requires !r.Scale? && Fits(r, stage) && (stage.Locked? || stage.Fetching? || stage.HaveApp?)
  {
    match stage
    case Locked(_) =>
      if !o.ok then Unlocking
      else if r.SetActiveSchedule? then
        if a.schedule.Some? && a.schedule.value.id == r.schedule.id then Unlocking else DeletingSchedule
      else if a.schedule.None? || a.schedule.value.id != r.scheduleId then Unlocking else DeletingSchedule
    case Fetching =>
      if !o.ok || a.instances.None? then Failure(r, -1, clock)
      else if r.SetActiveSchedule? then
        Decide(r, a.instances.value, a.instances.value, InitialMin(r.schedule), r.schedule.max, clock, 0, 0)
      else HaveApp(clock, a.instances.value)
    case HaveApp(now, found) =>
      if !o.ok then Failure(r, found, now)
      else if o.policy.None? then Saving(Entry(r, Ignored, found, -1, now, 0, 0))
      else Decide(r, found, found, o.policy.value.min, o.policy.value.max, now, 0, 0)
  }

  function GoOn(a: AppState, stage: Stage): Progress {
    Progress(a, stage, None, None)
  }

  /** One statement of the operation that holds the lock. */
  function Do(r: Request, a: AppState, stage: Stage, clock: int, o: Oracle, defaultSeconds: int): (p: Progress)
    requires Fits(r, stage)
    ensures Fits(r, p.stage)
  {
    match stage
    case Locked(_) =>
      GoOn(a, if r.Scale? then ScaleStep(r, a, stage, clock, o, defaultSeconds)
              else ScheduleStep(r, a, stage, clock, o))
    case HaveApp(_, _) =>
      GoOn(a, if r.Scale? then ScaleStep(r, a, stage, clock, o, defaultSeconds)
              else ScheduleStep(r, a, stage, clock, o))
    case CheckedCooldown(_, _, _) => GoOn(a, ScaleStep(r, a, stage, clock, o, defaultSeconds))
    case Fetching => GoOn(a, ScheduleStep(r, a, stage, clock, o))
    case DeletingSchedule =>
      if !o.ok then GoOn(a, Unlocking)
      else GoOn(a.(schedule := None), if r.SetActiveSchedule? then InsertingSchedule else Fetching)
    case InsertingSchedule =>
      if !o.ok then GoOn(a, Unlocking) else GoOn(a.(schedule := Some(r.schedule)), Fetching)
    case Setting(record) =>
      var moved := a.(instances := Some(record.newInstances));
      if o.ok then GoOn(moved, if r.Scale? then DeletingCooldown(record) else Saving(record))
      else GoOn(if o.applied then moved else a, Saving(record.(status := Failed)))
    case DeletingCooldown(record) =>
      if o.ok then GoOn(a.(cooldown := None), InsertingCooldown(record)) else GoOn(a, Saving(record))
    case InsertingCooldown(record) =>
      if o.ok then GoOn(a.(cooldown := Some(ExpireAt(record))), Saving(record.(cooled := true)))
      else GoOn(a, Saving(record))
    case Saving(record) => Progress(a, Unlocking, Some(record), if o.ok then Some(record) else None)
    case Unlocking => GoOn(a, Unlocking)
  }

  // ----- What one app's history says -----

  predicate Counts(r: Record, app: string) {
    r.app == app && r.status.Succeeded?
  }

  /** The count after replaying the app's successful entries. */
  function Replay(start: Option<int>, history: seq<Record>, app: string): Option<int> {
    if history == [] then start
    else
      var n := |history| - 1;
      if Counts(history[n], app) then Some(history[n].newInstances) else Replay(start, history[..n], app)
  }

  /** Each successful entry starts from the count the one before it left. */
  predicate Chained(start: Option<int>, history: seq<Record>, app: string) {
    history == [] ||
    var n := |history| - 1;
    && Chained(start, history[..n], app)
    && (Counts(history[n], app) ==> Replay(start, history[..n], app) == Some(history[n].oldInstances))
  }

  lemma HistoryGrows(start: Option<int>, history: seq<Record>, r: Record, app: string)
    ensures Replay(start, history + [r], app)
            == if Counts(r, app) then Some(r.newInstances) else Replay(start, history, app)
    ensures Chained(start, history + [r], app)
            <==> Chained(start, history, app)
                 && (Counts(r, app) ==> Replay(start, history, app) == Some(r.oldInstances))
  {
    assert (history + [r])[..|history|] == history;
  }

  // ----- What the log of all offered entries says, saved or not -----

  /** An entry an operation came to save, and whether the history took it. */
  datatype Offer = Offer(record: Record, saved: bool)

  predicate Scales(r: Record, app: string) {
    Counts(r, app) && r.scalingType.Dynamic?
  }

  /** When the cooldowns end that successful dynamic scalings of the app have written. */
  function Expiries(log: seq<Offer>, app: string): set<int> {
    if log == [] then {}
    else
      var n := |log| - 1;
      var r := log[n].record;
      Expiries(log[..n], app) + if Scales(r, app) && r.cooled then {ExpireAt(r)} else {}
  }

  /** Each successful dynamic scaling checked strictly after every cooldown written before. */
  predicate Spaced(log: seq<Offer>, app: string) {
    log == [] ||
    var n := |log| - 1;
    && Spaced(log[..n], app)
    && (Scales(log[n].record, app) ==> forall e :: e in Expiries(log[..n], app) ==> e < log[n].record.checkedAt)
  }

  /** The entries the history took. */
  function SavedOf(log: seq<Offer>): seq<Record> {
    if log == [] then []
    else
      var n := |log| - 1;
      SavedOf(log[..n]) + if log[n].saved then [log[n].record] else []
  }

  lemma LogGrows(log: seq<Offer>, x: Offer, app: string)
    ensures Expiries(log + [x], app)
            == Expiries(log, app) + if Scales(x.record, app) && x.record.cooled then {ExpireAt(x.record)} else {}
    ensures Spaced(log + [x], app)
            <==> Spaced(log, app)
                 && (Scales(x.record, app) ==> forall e :: e in Expiries(log, app) ==> e < x.record.checkedAt)
    ensures SavedOf(log + [x]) == SavedOf(log) + if x.saved then [x.record] else []
  {
    assert (log + [x])[..|log|] == log;
  }

  // ----- The invariant of one app -----

  /** The app as the operation holding its lock sees it, with what its history replays to and the cooldowns written. */
  datatype View = View(state: AppState, replay: Option<int>, expiries: set<int>)

  /** A successful entry replays from what the history says; an unsuccessful one leaves the count as it is. */
  predicate Agrees(r: Request, record: Record, v: View, applied: bool) {
    && record.app == r.app && record.scalingType == TypeOf(r)
    && if record.status.Succeeded?
       then record.oldInstances != record.newInstances && v.replay == Some(record.oldInstances)
            && v.state.instances == Some(if applied then record.newInstances else record.oldInstances)
       else v.replay == v.state.instances
  }

  /** The history replays to the app's count, but for the change whose entry is not saved yet. */
  predicate ChainOk(r: Request, stage: Stage, v: View) {
    match stage
    case HaveApp(_, found) => v.replay == v.state.instances == Some(found)
    case CheckedCooldown(_, found, _) => v.replay == v.state.instances == Some(found)
    case Setting(record) => Agrees(r, record, v, false) && record.status.Succeeded?
    case DeletingCooldown(record) => Agrees(r, record, v, true)
    case InsertingCooldown(record) => Agrees(r, record, v, true)
    case Saving(record) => Agrees(r, record, v, true)
    case _ => v.replay == v.state.instances
  }

  /** Every cooldown ever written is the one in the table, or over. */
  predicate CooldownKept(v: View, clock: int) {
    forall e :: e in v.expiries ==> v.state.cooldown == Some(e) || e < clock
  }

  predicate Passed(v: View, time: int) {
    forall e :: e in v.expiries ==> e < time
  }

  /** The entry of an operation about to save it: a successful dynamic scaling has found all cooldowns over. */
  predicate CheckedInTime(r: Request, record: Record, v: View, clock: int) {
    && record.app == r.app && record.scalingType == TypeOf(r)
    && if record.status.Succeeded? && r.Scale? then record.checkedAt <= clock && Passed(v, record.checkedAt)
       else CooldownKept(v, clock)
  }

  /** No operation undoes a cooldown before it is over, and a scaling under way has checked that all are. */
  predicate CooldownOk(r: Request, stage: Stage, v: View, clock: int) {
    match stage
    case CheckedCooldown(_, _, checkedAt) => checkedAt <= clock && Passed(v, checkedAt)
    case Setting(record) => CheckedInTime(r, record, v, clock) && record.status.Succeeded? && !record.cooled
    case DeletingCooldown(record) => CheckedInTime(r, record, v, clock) && record.status.Succeeded? && !record.cooled
    case InsertingCooldown(record) => CheckedInTime(r, record, v, clock) && record.status.Succeeded? && !record.cooled
    case Saving(record) =>
      CheckedInTime(r, record, v, clock) && (record.cooled ==> v.state.cooldown == Some(ExpireAt(record)))
    case _ => CooldownKept(v, clock)
  }

  /** The entry of a change is saved, and a call that reports failure did not take effect. */
  predicate HistoryReliable(stage: Stage, o: Oracle) {
    && (stage.Saving? && stage.record.status.Succeeded? ==> o.ok)
    && (stage.Setting? && !o.ok ==> !o.applied)
  }

  function After(v: View, p: Progress, app: string): View {
    View(p.state,
         if p.saved.Some? && Counts(p.saved.value, app) then Some(p.saved.value.newInstances) else v.replay,
         if p.offered.Some? && Scales(p.offered.value, app) && p.offered.value.cooled
         then v.expiries + {ExpireAt(p.offered.value)} else v.expiries)
  }

  /** A statement keeps the chain exactly if it is reliable; the entry it saves continues the chain in any case. */
  lemma StepKeepsChain(r: Request, stage: Stage, v: View, clock: int, o: Oracle, defaultSeconds: int)
    requires Fits(r, stage) && ChainOk(r, stage, v)
    ensures var p := Do(r, v.state, stage, clock, o, defaultSeconds);
            && (ChainOk(r, p.stage, After(v, p, r.app)) <==> HistoryReliable(stage, o))
            && (p.offered.Some? ==> p.offered.value.app == r.app)
            && (p.saved.Some? ==>
              && p.offered == p.saved
              && (Counts(p.saved.value, r.app) ==> v.replay == Some(p.saved.value.oldInstances)))
  {
  }

  /** Every statement keeps the cooldowns, whatever fails; a scaling it offers has found all of them over. */
  lemma StepKeepsCooldown(r: Request, stage: Stage, v: View, clock: int, o: Oracle, defaultSeconds: int)
    requires Fits(r, stage) && CooldownOk(r, stage, v, clock)
    ensures var p := Do(r, v.state, stage, clock, o, defaultSeconds);
            && CooldownOk(r, p.stage, After(v, p, r.app), clock)
            && (p.offered.Some? ==>
              && p.offered.value.app == r.app
              && (Scales(p.offered.value, r.app) ==> Passed(v, p.offered.value.checkedAt)))
  {
  }

  /**
   * A successful change whose entry is lost leaves a history that replays to the wrong count; a saved one never does.
   */
  lemma LostEntryShows(r: Request, record: Record, v: View, clock: int, o: Oracle, defaultSeconds: int)
    requires ChainOk(r, Saving(record), v) && record.status.Succeeded?
    ensures var p := Do(r, v.state, Saving(record), clock, o, defaultSeconds);
            After(v, p, r.app).replay == p.state.instances <==> o.ok
  {
  }

  // ----- Many threads, many apps, one table of striped locks -----

  datatype Thread = Idle | Busy(request: Request, stage: Stage)

  /** holders says which thread holds which stripe; log keeps every entry offered to the history. */
  datatype State = State(
    clock: int, instances: map<string, int>, schedules: map<string, Schedule>, cooldowns: map<string, int>,
    history: seq<Record>, log: seq<Offer>, threads: map<nat, Thread>, holders: map<nat, nat>)

  datatype Action = Advance(d: nat) | Begin(t: nat, request: Request) | Proceed(t: nat, oracle: Oracle) | End(t: nat)

  function Get<V>(m: map<string, V>, k: string): Option<V> {
    if k in m then Some(m[k]) else None
  }

  function Put<V>(m: map<string, V>, k: string, v: Option<V>): map<string, V> {
    if v.Some? then m[k := v.value] else m - {k}
  }

  function AppOf(s: State, app: string): AppState {
    AppState(Get(s.instances, app), Get(s.schedules, app), Get(s.cooldowns, app))
  }

  predicate IsBusy(s: State, t: nat) {
    t in s.threads && s.threads[t].Busy?
  }

  /** A thread begins once the stripe of its app is free; any two apps may share a stripe. */
  predicate Enabled(stripe: string -> nat, s: State, a: Action) {
    match a
    case Advance(_) => true
    case Begin(t, request) => t in s.threads && s.threads[t].Idle? && stripe(request.app) !in s.holders
    case Proceed(t, _) =>
      IsBusy(s, t) && !s.threads[t].stage.Unlocking? && Fits(s.threads[t].request, s.threads[t].stage)
    case End(t) => IsBusy(s, t) && s.threads[t].stage.Unlocking?
  }

  function Next(stripe: string -> nat, defaultSeconds: int, s: State, a: Action): State
    requires Enabled(stripe, s, a)
  {
    match a
    case Advance(d) => s.(clock := s.clock + d)
    case Begin(t, request) =>
      s.(threads := s.threads[t := Busy(request, Locked(s.clock))], holders := s.holders[stripe(request.app) := t])
    case Proceed(t, o) =>
      var r := s.threads[t].request;
      var p := Do(r, AppOf(s, r.app), s.threads[t].stage, s.clock, o, defaultSeconds);
      s.(instances := Put(s.instances, r.app, p.state.instances),
         schedules := Put(s.schedules, r.app, p.state.schedule),
         cooldowns := Put(s.cooldowns, r.app, p.state.cooldown),
         history := if p.saved.Some? then s.history + [p.saved.value] else s.history,
         log := if p.offered.Some? then s.log + [Offer(p.offered.value, p.saved.Some?)] else s.log,
         threads := s.threads[t := Busy(r, p.stage)])
    case End(t) =>
      s.(threads := s.threads[t := Idle], holders := s.holders - {stripe(s.threads[t].request.app)})
  }

  /** Every busy thread holds the stripe of its app. */
  ghost predicate LocksHeld(stripe: string -> nat, s: State) {
    forall t :: IsBusy(s, t) ==>
      && Fits(s.threads[t].request, s.threads[t].stage)
      && stripe(s.threads[t].request.app) in s.holders
      && s.holders[stripe(s.threads[t].request.app)] == t
  }

  /** The thread at work on an app, if any; the striped lock makes it unique. */
  predicate WorksOn(s: State, t: nat, app: string) {
    IsBusy(s, t) && s.threads[t].request.app == app
  }

  function ViewOf(start: map<string, int>, s: State, app: string): View {
    View(AppOf(s, app), Replay(Get(start, app), s.history, app), Expiries(s.log, app))
  }

  /** The chain invariant of one app: by the stage of the thread at work on it, else between operations. */
  ghost predicate AppChainOk(start: map<string, int>, s: State, app: string) {
    && Chained(Get(start, app), s.history, app)
    && (forall t :: WorksOn(s, t, app) ==> ChainOk(s.threads[t].request, s.threads[t].stage, ViewOf(start, s, app)))
    && ((forall t :: !WorksOn(s, t, app)) ==> ViewOf(start, s, app).replay == AppOf(s, app).instances)
  }

  ghost predicate AppCooldownOk(s: State, app: string) {
    var v := ViewOf(map[], s, app);
    && Spaced(s.log, app)
    && (forall t :: WorksOn(s, t, app) ==> CooldownOk(s.threads[t].request, s.threads[t].stage, v, s.clock))
    && ((forall t :: !WorksOn(s, t, app)) ==> CooldownKept(v, s.clock))
  }

  lemma MutualExclusion(stripe: string -> nat, s: State, t: nat, u: nat, app: string)
    requires LocksHeld(stripe, s) && WorksOn(s, t, app) && WorksOn(s, u, app)
    ensures t == u
  {
  }

  lemma NextHoldsLocks(stripe: string -> nat, defaultSeconds: int, s: State, a: Action)
    requires LocksHeld(stripe, s) && Enabled(stripe, s, a)
    ensures LocksHeld(stripe, Next(stripe, defaultSeconds, s, a))
  {
  }

  function ProgressOf(s: State, t: nat, o: Oracle, defaultSeconds: int): Progress
    requires IsBusy(s, t) && Fits(s.threads[t].request, s.threads[t].stage)
  {
    Do(s.threads[t].request, AppOf(s, s.threads[t].request.app), s.threads[t].stage, s.clock, o, defaultSeconds)
  }

  lemma ReplayAfterProceed(
    stripe: string -> nat, defaultSeconds: int, start: map<string, int>, s: State, t: nat, o: Oracle, app: string)
    requires Enabled(stripe, s, Proceed(t, o))
    ensures var p := ProgressOf(s, t, o, defaultSeconds);
            Replay(Get(start, app), Next(stripe, defaultSeconds, s, Proceed(t, o)).history, app)
            == if p.saved.Some? && Counts(p.saved.value, app) then Some(p.saved.value.newInstances)
               else Replay(Get(start, app), s.history, app)
  {
    var p := ProgressOf(s, t, o, defaultSeconds);
    if p.saved.Some? {
      HistoryGrows(Get(start, app), s.history, p.saved.value, app);
    }
  }

  lemma ExpiriesAfterProceed(stripe: string -> nat, defaultSeconds: int, s: State, t: nat, o: Oracle, app: string)
    requires Enabled(stripe, s, Proceed(t, o))
    ensures var p := ProgressOf(s, t, o, defaultSeconds);
            Expiries(Next(stripe, defaultSeconds, s, Proceed(t, o)).log, app)
            == if p.offered.Some? && Scales(p.offered.value, app) && p.offered.value.cooled
               then Expiries(s.log, app) + {ExpireAt(p.offered.value)} else Expiries(s.log, app)
  {
    var p := ProgressOf(s, t, o, defaultSeconds);
    if p.offered.Some? {
      LogGrows(s.log, Offer(p.offered.value, p.saved.Some?), app);
    }
  }

  lemma AppAfterProceed(stripe: string -> nat, defaultSeconds: int, s: State, t: nat, o: Oracle, app: string)
    requires Enabled(stripe, s, Proceed(t, o))
    ensures AppOf(Next(stripe, defaultSeconds, s, Proceed(t, o)), app)
            == if app == s.threads[t].request.app then ProgressOf(s, t, o, defaultSeconds).state else AppOf(s, app)
  {
  }

  /** A statement changes the view of its own app as it should, and of no other. */
  lemma ViewAfterProceed(
    stripe: string -> nat, defaultSeconds: int, start: map<string, int>, s: State, t: nat, o: Oracle, app: string)
    requires Enabled(stripe, s, Proceed(t, o))
    requires var p := ProgressOf(s, t, o, defaultSeconds);
             && (p.offered.Some? ==> p.offered.value.app == s.threads[t].request.app)
             && (p.saved.Some? ==> p.offered == p.saved)
    ensures var p := ProgressOf(s, t, o, defaultSeconds);
            ViewOf(start, Next(stripe, defaultSeconds, s, Proceed(t, o)), app)
            == if app == s.threads[t].request.app then After(ViewOf(start, s, app), p, app) else ViewOf(start, s, app)
  {
    AppAfterProceed(stripe, defaultSeconds, s, t, o, app);
    ReplayAfterProceed(stripe, defaultSeconds, start, s, t, o, app);
    ExpiriesAfterProceed(stripe, defaultSeconds, s, t, o, app);
  }

  /** A statement changes nothing about who is at work on which app, and only the stage of its own thread. */
  lemma ProceedWorkers(stripe: string -> nat, defaultSeconds: int, s: State, t: nat, o: Oracle, app: string)
    requires LocksHeld(stripe, s) && Enabled(stripe, s, Proceed(t, o))
    ensures var n := Next(stripe, defaultSeconds, s, Proceed(t, o));
            && n.clock == s.clock
            && (forall u :: WorksOn(n, u, app) <==> WorksOn(s, u, app))
            && (forall u :: WorksOn(s, u, app) && app != s.threads[t].request.app ==> n.threads[u] == s.threads[u])
            && (forall u :: WorksOn(s, u, app) && app == s.threads[t].request.app ==> u == t)
            && n.threads[t] == Busy(s.threads[t].request, ProgressOf(s, t, o, defaultSeconds).stage)
  {
    var n := Next(stripe, defaultSeconds, s, Proceed(t, o));
    forall u | WorksOn(s, u, app) && app == s.threads[t].request.app ensures u == t {
      MutualExclusion(stripe, s, t, u, app);
    }
    assert n.threads == s.threads[t := Busy(s.threads[t].request, ProgressOf(s, t, o, defaultSeconds).stage)];
  }

  /** The chain of its own app survives only a reliable statement. */
  lemma ChainNeedsReliable(
    stripe: string -> nat, defaultSeconds: int, start: map<string, int>, s: State, t: nat, o: Oracle)
    requires Enabled(stripe, s, Proceed(t, o))
    requires AppChainOk(start, s, s.threads[t].request.app)
    requires AppChainOk(start, Next(stripe, defaultSeconds, s, Proceed(t, o)), s.threads[t].request.app)
    ensures HistoryReliable(s.threads[t].stage, o)
  {
    var r, n := s.threads[t].request, Next(stripe, defaultSeconds, s, Proceed(t, o));
    assert WorksOn(s, t, r.app) && WorksOn(n, t, r.app);
    StepKeepsChain(r, s.threads[t].stage, ViewOf(start, s, r.app), s.clock, o, defaultSeconds);
    ViewAfterProceed(stripe, defaultSeconds, start, s, t, o, r.app);
  }

  lemma ProceedKeepsChain(
    stripe: string -> nat, defaultSeconds: int, start: map<string, int>, s: State, t: nat, o: Oracle, app: string)
    requires LocksHeld(stripe, s) && Enabled(stripe, s, Proceed(t, o)) && HistoryReliable(s.threads[t].stage, o)
    requires AppChainOk(start, s, app) && AppChainOk(start, s, s.threads[t].request.app)
    ensures AppChainOk(start, Next(stripe, defaultSeconds, s, Proceed(t, o)), app)
  {
    var r, stage := s.threads[t].request, s.threads[t].stage;
    var p := ProgressOf(s, t, o, defaultSeconds);
    assert WorksOn(s, t, r.app);
    StepKeepsChain(r, stage, ViewOf(start, s, r.app), s.clock, o, defaultSeconds);
    ViewAfterProceed(stripe, defaultSeconds, start, s, t, o, app);
    ProceedWorkers(stripe, defaultSeconds, s, t, o, app);
    if p.saved.Some? {
      HistoryGrows(Get(start, app), s.history, p.saved.value, app);
    }
  }

  /** Who is at work on an app after a step between statements: who was, or a thread that has just begun. */
  lemma BoundaryWorkers(stripe: string -> nat, defaultSeconds: int, s: State, a: Action, app: string)
    requires LocksHeld(stripe, s) && Enabled(stripe, s, a) && !a.Proceed?
    ensures var n := Next(stripe, defaultSeconds, s, a);
            && (forall u :: WorksOn(n, u, app) ==>
                 || (WorksOn(s, u, app) && n.threads[u] == s.threads[u])
                 || (n.threads[u].stage.Locked? && forall x :: !WorksOn(s, x, app)))
            && ((forall u :: !WorksOn(n, u, app)) ==>
                 || (forall u :: !WorksOn(s, u, app))
                 || (a.End? && WorksOn(s, a.t, app)))
  {
    var n := Next(stripe, defaultSeconds, s, a);
    if a.Begin? {
      assert forall u :: WorksOn(n, u, app) <==> WorksOn(s, u, app) || (u == a.t && app == a.request.app);
      assert app == a.request.app ==> forall u :: !WorksOn(s, u, app);
    } else if a.End? {
      assert forall u :: WorksOn(n, u, app) <==> WorksOn(s, u, app) && u != a.t;
    } else {
      assert forall u :: WorksOn(n, u, app) <==> WorksOn(s, u, app);
    }
  }

  lemma BoundaryKeepsChain(
    stripe: string -> nat, defaultSeconds: int, start: map<string, int>, s: State, a: Action, app: string)
    requires LocksHeld(stripe, s) && Enabled(stripe, s, a) && !a.Proceed?
    requires AppChainOk(start, s, app)
    ensures AppChainOk(start, Next(stripe, defaultSeconds, s, a), app)
  {
    assert ViewOf(start, Next(stripe, defaultSeconds, s, a), app) == ViewOf(start, s, app);
    BoundaryWorkers(stripe, defaultSeconds, s, a, app);
  }

  lemma ProceedKeepsSpaced(stripe: string -> nat, defaultSeconds: int, s: State, t: nat, o: Oracle, app: string)
    requires Enabled(stripe, s, Proceed(t, o))
    requires Spaced(s.log, app) && AppCooldownOk(s, s.threads[t].request.app)
    ensures Spaced(Next(stripe, defaultSeconds, s, Proceed(t, o)).log, app)
  {
    var r, p := s.threads[t].request, ProgressOf(s, t, o, defaultSeconds);
    assert WorksOn(s, t, r.app);
    StepKeepsCooldown(r, s.threads[t].stage, ViewOf(map[], s, r.app), s.clock, o, defaultSeconds);
    if p.offered.Some? {
      LogGrows(s.log, Offer(p.offered.value, p.saved.Some?), app);
    }
  }

  lemma ProceedKeepsCooldown(stripe: string -> nat, defaultSeconds: int, s: State, t: nat, o: Oracle, app: string)
    requires LocksHeld(stripe, s) && Enabled(stripe, s, Proceed(t, o))
    requires AppCooldownOk(s, app) && AppCooldownOk(s, s.threads[t].request.app)
    ensures AppCooldownOk(Next(stripe, defaultSeconds, s, Proceed(t, o)), app)
  {
    var r, stage := s.threads[t].request, s.threads[t].stage;
    assert WorksOn(s, t, r.app);
    StepKeepsCooldown(r, stage, ViewOf(map[], s, r.app), s.clock, o, defaultSeconds);
    ViewAfterProceed(stripe, defaultSeconds, map[], s, t, o, app);
    ProceedWorkers(stripe, defaultSeconds, s, t, o, app);
    ProceedKeepsSpaced(stripe, defaultSeconds, s, t, o, app);
  }

  lemma BoundaryKeepsCooldown(stripe: string -> nat, defaultSeconds: int, s: State, a: Action, app: string)
    requires LocksHeld(stripe, s) && Enabled(stripe, s, a) && !a.Proceed?
    requires AppCooldownOk(s, app)
    ensures AppCooldownOk(Next(stripe, defaultSeconds, s, a), app)
  {
    assert ViewOf(map[], Next(stripe, defaultSeconds, s, a), app) == ViewOf(map[], s, app);
    BoundaryWorkers(stripe, defaultSeconds, s, a, app);
  }

  // ----- Whole runs -----

  ghost predicate Initial(s: State) {
    s.holders == map[] && forall t :: !IsBusy(s, t)
  }

  /** Any interleaving of the statements of any number of threads on any apps, whatever the stripes. */
  ghost predicate IsRun(stripe: string -> nat, defaultSeconds: int, states: seq<State>, actions: seq<Action>) {
    && |states| == |actions| + 1
    && Initial(states[0])
    && forall i :: 0 <= i < |actions| ==>
         Enabled(stripe, states[i], actions[i]) && states[i + 1] == Next(stripe, defaultSeconds, states[i], actions[i])
  }

  ghost predicate HistoryReliableAt(s: State, a: Action) {
    a.Proceed? && IsBusy(s, a.t) ==> HistoryReliable(s.threads[a.t].stage, a.oracle)
  }

  lemma {:induction false} RunHoldsLocks(
    stripe: string -> nat, defaultSeconds: int, states: seq<State>, actions: seq<Action>, i: nat)
    requires IsRun(stripe, defaultSeconds, states, actions) && i < |states|
    ensures LocksHeld(stripe, states[i])
  {
    if i > 0 {
      RunHoldsLocks(stripe, defaultSeconds, states, actions, i - 1);
      NextHoldsLocks(stripe, defaultSeconds, states[i - 1], actions[i - 1]);
    }
  }

  /** A stripe is held only by a thread at work on an app of that stripe. */
  ghost predicate HoldersBusy(stripe: string -> nat, s: State) {
    forall x :: x in s.holders ==> IsBusy(s, s.holders[x]) && stripe(s.threads[s.holders[x]].request.app) == x
  }

  lemma {:induction false} NextHoldersBusy(stripe: string -> nat, defaultSeconds: int, s: State, a: Action)
    requires LocksHeld(stripe, s) && HoldersBusy(stripe, s) && Enabled(stripe, s, a)
    ensures HoldersBusy(stripe, Next(stripe, defaultSeconds, s, a))
  {
    if a.End? {
      var n := Next(stripe, defaultSeconds, s, a);
      forall x | x in n.holders
        ensures IsBusy(n, n.holders[x]) && stripe(n.threads[n.holders[x]].request.app) == x
      {
        assert n.holders[x] == s.holders[x] && n.holders[x] != a.t;
      }
    }
  }

  /**
   * No lock is left behind and nothing blocks for good: in every state of every run time may pass, a busy thread can
   * take its next statement whatever that meets, or give its lock back after the last, and an idle one can begin an
   * operation exactly if no busy thread works on an app of the same stripe.
   */
  lemma {:induction false} NothingBlocks(
    stripe: string -> nat, defaultSeconds: int, states: seq<State>, actions: seq<Action>, i: nat)
    requires IsRun(stripe, defaultSeconds, states, actions) && i < |states|
    ensures HoldersBusy(stripe, states[i])
    ensures forall d: nat ::
              && Enabled(stripe, states[i], Advance(d))
              && Next(stripe, defaultSeconds, states[i], Advance(d)) == states[i].(clock := states[i].clock + d)
    ensures forall t, o :: IsBusy(states[i], t) && !states[i].threads[t].stage.Unlocking? ==>
              Enabled(stripe, states[i], Proceed(t, o))
    ensures forall t :: IsBusy(states[i], t) && states[i].threads[t].stage.Unlocking? ==>
              Enabled(stripe, states[i], End(t))
    ensures forall t, r :: t in states[i].threads && states[i].threads[t].Idle? ==>
              (Enabled(stripe, states[i], Begin(t, r)) <==>
               forall u :: IsBusy(states[i], u) ==> stripe(states[i].threads[u].request.app) != stripe(r.app))
  {
    RunHoldsLocks(stripe, defaultSeconds, states, actions, i);
    if i > 0 {
      NothingBlocks(stripe, defaultSeconds, states, actions, i - 1);
      RunHoldsLocks(stripe, defaultSeconds, states, actions, i - 1);
      NextHoldersBusy(stripe, defaultSeconds, states[i - 1], actions[i - 1]);
    }
  }

  /**
   * Under every interleaving: if the history is always saved and no failing call took effect, each app's successful
   * entries chain from its first count and, whenever no operation is at work on the app, replay to its current one.
   * The run may start from any history that does, with start the counts before it; an empty one with the counts found.
   */
  lemma {:induction false} HistoryReplays(
    stripe: string -> nat, defaultSeconds: int, start: map<string, int>, states: seq<State>, actions: seq<Action>,
    i: nat, app: string)
    requires IsRun(stripe, defaultSeconds, states, actions) && i < |states|
    requires forall b :: AppChainOk(start, states[0], b)
    requires forall k :: 0 <= k < i ==> HistoryReliableAt(states[k], actions[k])
    ensures AppChainOk(start, states[i], app)
  {
    if i > 0 {
      var s, a := states[i - 1], actions[i - 1];
      RunHoldsLocks(stripe, defaultSeconds, states, actions, i - 1);
      HistoryReplays(stripe, defaultSeconds, start, states, actions, i - 1, app);
      if a.Proceed? {
        HistoryReplays(stripe, defaultSeconds, start, states, actions, i - 1, s.threads[a.t].request.app);
        assert HistoryReliableAt(s, a);
        ProceedKeepsChain(stripe, defaultSeconds, start, s, a.t, a.oracle, app);
      } else {
        BoundaryKeepsChain(stripe, defaultSeconds, start, s, a, app);
      }
    }
  }

  /** From an empty history they chain from the counts found. */
  lemma {:induction false} HistoryReplaysFromEmpty(
    stripe: string -> nat, defaultSeconds: int, states: seq<State>, actions: seq<Action>, i: nat, app: string)
    requires IsRun(stripe, defaultSeconds, states, actions) && i < |states| && states[0].history == []
    requires forall k :: 0 <= k < i ==> HistoryReliableAt(states[k], actions[k])
    ensures AppChainOk(states[0].instances, states[i], app)
  {
    forall b ensures AppChainOk(states[0].instances, states[0], b) {
      EmptyHistoryChains(states[0], b);
    }
    HistoryReplays(stripe, defaultSeconds, states[0].instances, states, actions, i, app);
  }

  lemma EmptyHistoryChains(s: State, app: string)
    requires Initial(s) && s.history == []
    ensures AppChainOk(s.instances, s, app)
  {
  }

  /**
   * The two hypotheses are exact: all apps chain in all states of a run if and only if every entry of a change was
   * saved and no call that set instances and failed took effect.
   */
  lemma {:induction false} HistoryReplaysExactlyIf(
    stripe: string -> nat, defaultSeconds: int, start: map<string, int>, states: seq<State>, actions: seq<Action>)
    requires IsRun(stripe, defaultSeconds, states, actions)
    requires forall b :: AppChainOk(start, states[0], b)
    ensures (forall i, app :: 0 <= i < |states| ==> AppChainOk(start, states[i], app))
            <==> forall k :: 0 <= k < |actions| ==> HistoryReliableAt(states[k], actions[k])
  {
    if forall i, app :: 0 <= i < |states| ==> AppChainOk(start, states[i], app) {
      forall k | 0 <= k < |actions| ensures HistoryReliableAt(states[k], actions[k]) {
        var s, a := states[k], actions[k];
        assert states[k + 1] == Next(stripe, defaultSeconds, s, a);
        if a.Proceed? {
          ChainNeedsReliable(stripe, defaultSeconds, start, s, a.t, a.oracle);
        }
      }
    }
    if forall k :: 0 <= k < |actions| ==> HistoryReliableAt(states[k], actions[k]) {
      forall i, app | 0 <= i < |states| ensures AppChainOk(start, states[i], app) {
        HistoryReplays(stripe, defaultSeconds, start, states, actions, i, app);
      }
    }
  }

  /** Under every interleaving, whatever fails: no dynamic scaling breaks into a cooldown written before it. */
  lemma {:induction false} CooldownsRespected(
    stripe: string -> nat, defaultSeconds: int, states: seq<State>, actions: seq<Action>, i: nat, app: string)
    requires IsRun(stripe, defaultSeconds, states, actions) && i < |states| && states[0].log == []
    ensures AppCooldownOk(states[i], app)
  {
    if i > 0 {
      var s, a := states[i - 1], actions[i - 1];
      RunHoldsLocks(stripe, defaultSeconds, states, actions, i - 1);
      CooldownsRespected(stripe, defaultSeconds, states, actions, i - 1, app);
      if a.Proceed? {
        CooldownsRespected(stripe, defaultSeconds, states, actions, i - 1, s.threads[a.t].request.app);
        ProceedKeepsCooldown(stripe, defaultSeconds, s, a.t, a.oracle, app);
      } else {
        BoundaryKeepsCooldown(stripe, defaultSeconds, s, a, app);
      }
    }
  }

  /** Entries i and j count for the app and none between them does. */
  ghost predicate Consecutive(history: seq<Record>, app: string, i: nat, j: nat) {
    && i < j < |history|
    && Counts(history[i], app) && Counts(history[j], app)
    && forall k :: i < k < j ==> !Counts(history[k], app)
  }

  lemma {:induction false} LastBefore(start: Option<int>, history: seq<Record>, app: string, i: nat)
    requires i < |history| && Counts(history[i], app)
    requires forall k :: i < k < |history| ==> !Counts(history[k], app)
    ensures Replay(start, history, app) == Some(history[i].newInstances)
  {
    if i < |history| - 1 {
      LastBefore(start, history[..|history| - 1], app, i);
    }
  }

  lemma {:induction false} ChainedPrefix(start: Option<int>, history: seq<Record>, app: string, j: nat)
    requires j < |history| && Chained(start, history, app)
    ensures Chained(start, history[..j + 1], app)
  {
    if j + 1 < |history| {
      ChainedPrefix(start, history[..|history| - 1], app, j);
      assert history[..|history| - 1][..j + 1] == history[..j + 1];
    } else {
      assert history[..j + 1] == history;
    }
  }

  /** Read entry by entry: each successful entry starts where the one before it ended. */
  lemma {:induction false} ConsecutiveEntriesMeet(
    stripe: string -> nat, defaultSeconds: int, start: map<string, int>, states: seq<State>, actions: seq<Action>,
    n: nat, app: string, i: nat, j: nat)
    requires IsRun(stripe, defaultSeconds, states, actions) && n < |states|
    requires forall b :: AppChainOk(start, states[0], b)
    requires forall k :: 0 <= k < n ==> HistoryReliableAt(states[k], actions[k])
    requires Consecutive(states[n].history, app, i, j)
    ensures states[n].history[i].newInstances == states[n].history[j].oldInstances
  {
    var h := states[n].history;
    HistoryReplays(stripe, defaultSeconds, start, states, actions, n, app);
    ChainedPrefix(Get(start, app), h, app, j);
    assert h[..j + 1][..j] == h[..j];
    LastBefore(Get(start, app), h[..j], app, i);
  }

  lemma {:induction false} CooledExpires(log: seq<Offer>, app: string, i: nat)
    requires i < |log| && Scales(log[i].record, app) && log[i].record.cooled
    ensures ExpireAt(log[i].record) in Expiries(log, app)
  {
    if i < |log| - 1 {
      CooledExpires(log[..|log| - 1], app, i);
    }
  }

  lemma {:induction false} SpacedAt(log: seq<Offer>, app: string, i: nat, j: nat)
    requires i < j < |log| && Spaced(log, app)
    requires Scales(log[i].record, app) && log[i].record.cooled && Scales(log[j].record, app)
    ensures ExpireAt(log[i].record) < log[j].record.checkedAt
  {
    var n := |log| - 1;
    if j < n {
      SpacedAt(log[..n], app, i, j);
    } else {
      CooledExpires(log[..n], app, i);
    }
  }

  /**
   * Read entry by entry: if the cooldown of a successful dynamic scaling was written, every later one, not only the
   * next, checked strictly after its time plus its cooldown, whatever else failed and whatever scaled in between.
   */
  lemma {:induction false} ScalingsSpaced(
    stripe: string -> nat, defaultSeconds: int, states: seq<State>, actions: seq<Action>, n: nat, app: string,
    i: nat, j: nat)
    requires IsRun(stripe, defaultSeconds, states, actions) && n < |states| && states[0].log == []
    requires i < j < |states[n].log|
    requires Scales(states[n].log[i].record, app) && Scales(states[n].log[j].record, app)
    requires states[n].log[i].record.cooled
    ensures states[n].log[i].record.timestamp + states[n].log[i].record.coolDown < states[n].log[j].record.checkedAt
  {
    CooldownsRespected(stripe, defaultSeconds, states, actions, n, app);
    SpacedAt(states[n].log, app, i, j);
  }

  lemma SavedIsOffered(r: Request, a: AppState, stage: Stage, clock: int, o: Oracle, defaultSeconds: int)
    requires Fits(r, stage)
    ensures var p := Do(r, a, stage, clock, o, defaultSeconds); p.saved.Some? ==> p.offered == p.saved
  {
  }

  lemma SavedGrows(log: seq<Offer>, p: Progress)
    requires p.saved.Some? ==> p.offered == p.saved
    ensures SavedOf(if p.offered.Some? then log + [Offer(p.offered.value, p.saved.Some?)] else log)
            == if p.saved.Some? then SavedOf(log) + [p.saved.value] else SavedOf(log)
  {
    if p.offered.Some? {
      LogGrows(log, Offer(p.offered.value, p.saved.Some?), "");
    }
  }

  lemma NextKeepsLog(stripe: string -> nat, defaultSeconds: int, s: State, a: Action)
    requires Enabled(stripe, s, a) && s.history == SavedOf(s.log)
    ensures var n := Next(stripe, defaultSeconds, s, a); n.history == SavedOf(n.log)
  {
    if a.Proceed? {
      var r := s.threads[a.t].request;
      SavedIsOffered(r, AppOf(s, r.app), s.threads[a.t].stage, s.clock, a.oracle, defaultSeconds);
      SavedGrows(s.log, ProgressOf(s, a.t, a.oracle, defaultSeconds));
    }
  }

  /** The history is the log without the entries that could not be saved. */
  lemma {:induction false} HistoryIsSavedLog(
    stripe: string -> nat, defaultSeconds: int, states: seq<State>, actions: seq<Action>, i: nat)
    requires IsRun(stripe, defaultSeconds, states, actions) && i < |states|
    requires states[0].history == [] && states[0].log == []
    ensures states[i].history == SavedOf(states[i].log)
  {
    if i > 0 {
      HistoryIsSavedLog(stripe, defaultSeconds, states, actions, i - 1);
      NextKeepsLog(stripe, defaultSeconds, states[i - 1], actions[i - 1]);
    }
  }
}
