/** The three operations as they are written: under the lock, statement after statement, on the engine's tables. */
module EngineOperations {
  import opened Common
  import opened Scaling
  import opened ScalingEngine

  /** How many statements can still follow. */
  function Rank(stage: Stage): nat {
    match stage
    case Unlocking => 0
    case Saving(_) => 1
    case InsertingCooldown(_) => 2
    case DeletingCooldown(_) => 3
    case Setting(_) => 4
    case CheckedCooldown(_, _, _) => 5
    case HaveApp(_, _) => 6
    case Fetching => 7
    case InsertingSchedule => 8
    case DeletingSchedule => 9
    case Locked(_) => 10
  }

  /** What each statement of a call meets, and when. */
  datatype World = World(oracle: nat -> Oracle, clock: nat -> int, defaultSeconds: int)

  /** An operation run to its end, from statement k on. */
  function Finish(r: Request, a: AppState, stage: Stage, w: World, k: nat): (AppState, Option<Record>)
    requires Fits(r, stage)
    decreases Rank(stage)
  {
    if stage.Unlocking? then (a, None)
    else
      var p := Do(r, a, stage, w.clock(k), w.oracle(k), w.defaultSeconds);
      if p.stage.Unlocking? then (p.state, p.saved) else Finish(r, p.state, p.stage, w, k + 1)
  }

  ghost predicate AllWell(w: World) {
    forall k :: w.oracle(k).ok && w.oracle(k).started
  }

  lemma {:induction false} FinishSaving(r: Request, a: AppState, record: Record, w: World, k: nat)
    requires AllWell(w)
    ensures Finish(r, a, Saving(record), w, k) == (a, Some(record))
  {
  }

  /** From a decision to the end: the count is set, a dynamic scaling writes its cooldown, the entry is saved. */
  lemma {:induction false} FinishDecision(
    r: Request, a: AppState, found: int, wanted: int, min: int, max: int, now: int, checkedAt: int,
    defaultSeconds: int, w: World, k: nat)
    requires AllWell(w)
    ensures var next := Clamp(wanted, min, max);
            var stage := Decide(r, found, wanted, min, max, now, checkedAt, defaultSeconds);
            var moved := a.(instances := Some(next));
            Finish(r, a, stage, w, k)
            == if next == found then (a, Some(stage.record))
               else if r.Scale?
               then (moved.(cooldown := Some(ExpireAt(stage.record))), Some(stage.record.(cooled := true)))
               else (moved, Some(stage.record))
  {
    var stage := Decide(r, found, wanted, min, max, now, checkedAt, defaultSeconds);
    var record := stage.record;
    if stage.Saving? {
      FinishSaving(r, a, record, w, k);
    } else {
      var moved := a.(instances := Some(record.newInstances));
      if r.Scale? {
        var cooled := moved.(cooldown := Some(ExpireAt(record)));
        assert Finish(r, a, stage, w, k) == Finish(r, moved, DeletingCooldown(record), w, k + 1);
        assert Finish(r, moved, DeletingCooldown(record), w, k + 1)
            == Finish(r, moved.(cooldown := None), InsertingCooldown(record), w, k + 2);
        assert Finish(r, moved.(cooldown := None), InsertingCooldown(record), w, k + 2)
            == Finish(r, cooled, Saving(record.(cooled := true)), w, k + 3);
        FinishSaving(r, cooled, record.(cooled := true), w, k + 3);
      } else {
        assert Finish(r, a, stage, w, k) == Finish(r, moved, Saving(record), w, k + 1);
        FinishSaving(r, moved, record, w, k + 1);
      }
    }
  }

  /**
   * A Scale that meets no failure is one round within the limits of the active schedule, else of the policy: the count,
   * the cooldown in nanoseconds and the entry follow from it, and the schedule stays. A step moves by its instances.
   */
  lemma {:induction false} ScaleIsOneRound(r: Request, a: AppState, now: int, w: World)
    requires r.Scale? && !r.adjustment.Malformed? && AllWell(w) && a.instances.Some?
    requires a.cooldown.Some? ==> a.cooldown.value < w.clock(1)
    requires a.schedule.Some? || w.oracle(2).policy.Some?
    ensures var min := if a.schedule.Some? then a.schedule.value.min else w.oracle(2).policy.value.min;
            var max := if a.schedule.Some? then a.schedule.value.max else w.oracle(2).policy.value.max;
            var coolDown := 1_000_000_000 * if r.coolDownSeconds <= 0 then w.defaultSeconds else r.coolDownSeconds;
            var count := a.instances.value;
            var next := ScaleOnce(count, r.adjustment, min, max);
            var (after, saved) := Finish(r, a, Locked(now), w, 0);
            && (r.adjustment.Instances? && min <= count + r.adjustment.step <= max ==>
                  next == count + r.adjustment.step)
            && after == AppState(Some(next), a.schedule, if next == count then a.cooldown else Some(now + coolDown))
            && saved == Some(Record(r.app, Dynamic, if next == count then Ignored else Succeeded, count, next, now,
                                    w.clock(1), coolDown, next != count))
  {
    var count := a.instances.value;
    var held := a.schedule;
    var limits := if held.Some? then Policy(held.value.min, held.value.max) else w.oracle(2).policy.value;
    var wanted := ComputeNewInstances(count, r.adjustment).value;
    var stage := Decide(r, count, wanted, limits.min, limits.max, now, w.clock(1), w.defaultSeconds);
    assert Finish(r, a, Locked(now), w, 0) == Finish(r, a, stage, w, 3) by {
      assert Finish(r, a, Locked(now), w, 0) == Finish(r, a, HaveApp(now, count), w, 1);
      assert Finish(r, a, HaveApp(now, count), w, 1) == Finish(r, a, CheckedCooldown(now, count, w.clock(1)), w, 2);
    }
    FinishDecision(r, a, count, wanted, limits.min, limits.max, now, w.clock(1), w.defaultSeconds, w, 3);
  }

  /** The entry of an operation that stops before it changes the count. */
  function Stopped(r: Request, status: Status, oldInstances: int, newInstances: int, now: int): Record {
    Record(r.app, if r.Scale? then Dynamic else Scheduled, status, oldInstances, newInstances, now, 0, 0, false)
  }

  /** An operation that went as far as to save its entry. */
  ghost predicate StopsWith(r: Request, a: AppState, stage: Stage, w: World, k: nat, record: Record)
    requires Fits(r, stage)
  {
    var (after, saved) := Finish(r, a, stage, w, k);
    after == a && saved.Some? && saved.value.(checkedAt := 0, coolDown := 0) == record
  }

  /** A Scale that cannot get the app's count fails; if the app is not started, it is ignored. Nothing changes. */
  lemma {:induction false} ScaleWithoutApp(r: Request, a: AppState, now: int, w: World)
    requires r.Scale? && w.oracle(1).ok
    ensures !w.oracle(0).ok || a.instances.None? ==> StopsWith(r, a, Locked(now), w, 0, Stopped(r, Failed, -1, -1, now))
    ensures w.oracle(0).ok && a.instances.Some? && !w.oracle(0).started ==>
              StopsWith(r, a, Locked(now), w, 0, Stopped(r, Ignored, a.instances.value, a.instances.value, now))
  {
  }

  /** A Scale that cannot check the cooldown fails; within the cooldown it is ignored. Nothing changes. */
  lemma {:induction false} ScaleInCooldown(r: Request, a: AppState, now: int, w: World)
    requires r.Scale? && w.oracle(0).ok && w.oracle(0).started && a.instances.Some? && w.oracle(2).ok
    ensures !w.oracle(1).ok ==> StopsWith(r, a, Locked(now), w, 0, Stopped(r, Failed, a.instances.value, -1, now))
    ensures w.oracle(1).ok && a.cooldown.Some? && w.clock(1) <= a.cooldown.value ==>
              StopsWith(r, a, Locked(now), w, 0, Stopped(r, Ignored, a.instances.value, a.instances.value, now))
  {
    assert Finish(r, a, Locked(now), w, 0) == Finish(r, a, HaveApp(now, a.instances.value), w, 1);
  }

  /** A Scale without a valid adjustment, or without limits, or whose limits cannot be read, fails. Nothing changes. */
  lemma {:induction false} ScaleWithoutLimits(r: Request, a: AppState, now: int, w: World)
    requires r.Scale? && w.oracle(0).ok && w.oracle(0).started && a.instances.Some? && w.oracle(1).ok && w.oracle(3).ok
    requires a.cooldown.Some? ==> a.cooldown.value < w.clock(1)
    requires !w.oracle(2).ok || r.adjustment.Malformed? || (a.schedule.None? && w.oracle(2).policy.None?)
    ensures StopsWith(r, a, Locked(now), w, 0, Stopped(r, Failed, a.instances.value, -1, now))
  {
    var count := a.instances.value;
    assert Finish(r, a, Locked(now), w, 0) == Finish(r, a, HaveApp(now, count), w, 1);
    assert Finish(r, a, HaveApp(now, count), w, 1) == Finish(r, a, CheckedCooldown(now, count, w.clock(1)), w, 2);
    assert Finish(r, a, CheckedCooldown(now, count, w.clock(1)), w, 2)
        == Finish(r, a, Saving(FailedEntry(r, count, now)), w, 3);
  }

  /** A call to set instances that fails leaves a failed entry with the count it was to set, and no cooldown. */
  lemma {:induction false} FailedSetting(r: Request, a: AppState, record: Record, w: World, k: nat)
    requires !w.oracle(k).ok && w.oracle(k + 1).ok
    ensures Finish(r, a, Setting(record), w, k)
            == (if w.oracle(k).applied then a.(instances := Some(record.newInstances)) else a,
                Some(record.(status := Failed)))
  {
  }

  /**
   * A cooldown that cannot be replaced stays, or is gone if only the new one cannot be written; the scaling has
   * succeeded in either case. An entry that cannot be saved changes nothing else.
   */
  lemma {:induction false} FailedCooldown(r: Request, a: AppState, record: Record, w: World, k: nat)
    requires r.Scale?
    ensures !w.oracle(k).ok && w.oracle(k + 1).ok ==>
              Finish(r, a, DeletingCooldown(record), w, k) == (a, Some(record))
    ensures w.oracle(k).ok && !w.oracle(k + 1).ok && w.oracle(k + 2).ok ==>
              Finish(r, a, DeletingCooldown(record), w, k) == (a.(cooldown := None), Some(record))
    ensures !w.oracle(k).ok ==> Finish(r, a, Saving(record), w, k) == (a, None)
  {
    if w.oracle(k).ok {
      assert Finish(r, a, DeletingCooldown(record), w, k)
          == Finish(r, a.(cooldown := None), InsertingCooldown(record), w, k + 1);
    }
  }

  /** A schedule that takes over or ends without failure moves the count within the limits it brings, and no more. */
  lemma {:induction false} ScheduleTakesEffect(r: Request, a: AppState, now: int, w: World)
    requires !r.Scale? && AllWell(w) && a.instances.Some?
    requires if r.SetActiveSchedule? then a.schedule.Some? ==> a.schedule.value.id != r.schedule.id
             else a.schedule.Some? && a.schedule.value.id == r.scheduleId
    ensures var count, starts, policy := a.instances.value, r.SetActiveSchedule?, w.oracle(3).policy;
            var min := if !starts then if policy.Some? then policy.value.min else count
                       else if r.schedule.min < r.schedule.minInitial then r.schedule.minInitial
                       else r.schedule.min;
            var max := if starts then r.schedule.max else if policy.Some? then policy.value.max else count;
            var next := if count < min then min else if max < count then max else count;
            var (after, saved) := Finish(r, a, Locked(now), w, 0);
            && after == AppState(Some(next), if starts then Some(r.schedule) else None, a.cooldown)
            && saved == Some(Stopped(r, if next == count then Ignored else Succeeded, count,
                                     if !starts && policy.None? then -1 else next, w.clock(if starts then 3 else 2)))
  {
    var freed, count := a.(schedule := None), a.instances.value;
    var held := if r.SetActiveSchedule? then a.(schedule := Some(r.schedule)) else freed;
    assert Finish(r, a, Locked(now), w, 0) == Finish(r, a, DeletingSchedule, w, 1);
    if r.SetActiveSchedule? {
      assert Finish(r, a, DeletingSchedule, w, 1) == Finish(r, freed, InsertingSchedule, w, 2);
      assert Finish(r, freed, InsertingSchedule, w, 2) == Finish(r, held, Fetching, w, 3);
      FinishDecision(r, held, count, count, InitialMin(r.schedule), r.schedule.max, w.clock(3), 0, 0, w, 4);
    } else {
      assert Finish(r, a, DeletingSchedule, w, 1) == Finish(r, freed, Fetching, w, 2);
      assert Finish(r, freed, Fetching, w, 2) == Finish(r, freed, HaveApp(w.clock(2), count), w, 3);
      var policy := w.oracle(3).policy;
      if policy.Some? {
        FinishDecision(r, freed, count, count, policy.value.min, policy.value.max, w.clock(2), 0, 0, w, 4);
      } else {
        FinishSaving(r, freed, Entry(r, Ignored, count, -1, w.clock(2), 0, 0), w, 4);
      }
    }
  }

  /**
   * A schedule operation without effect: its row cannot be read or deleted, the schedule is already active, or the one
   * to end is not. If only the insertion fails, the row is gone.
   */
  lemma {:induction false} ScheduleWithoutEffect(r: Request, a: AppState, now: int, w: World)
    requires !r.Scale?
    ensures var id := if r.SetActiveSchedule? then r.schedule.id else r.scheduleId;
            var same := a.schedule.Some? && a.schedule.value.id == id;
            !w.oracle(0).ok || !w.oracle(1).ok || (if r.SetActiveSchedule? then same else !same) ==>
              Finish(r, a, Locked(now), w, 0) == (a, None)
    ensures r.SetActiveSchedule? && w.oracle(0).ok && w.oracle(1).ok && !w.oracle(2).ok
            && !(a.schedule.Some? && a.schedule.value.id == r.schedule.id) ==>
              Finish(r, a, Locked(now), w, 0) == (a.(schedule := None), None)
  {
    if w.oracle(0).ok && w.oracle(1).ok && r.SetActiveSchedule?
       && !(a.schedule.Some? && a.schedule.value.id == r.schedule.id) {
      assert Finish(r, a, Locked(now), w, 0) == Finish(r, a, DeletingSchedule, w, 1);
      assert Finish(r, a, DeletingSchedule, w, 1) == Finish(r, a.(schedule := None), InsertingSchedule, w, 2);
    }
  }

  /** A schedule operation that cannot get the app's count, or its policy, has changed the row and records a failure. */
  lemma {:induction false} ScheduleWithoutApp(r: Request, a: AppState, w: World, k: nat)
    requires !r.Scale?
    ensures (!w.oracle(k).ok || a.instances.None?) && w.oracle(k + 1).ok ==>
              Finish(r, a, Fetching, w, k) == (a, Some(Stopped(r, Failed, -1, -1, w.clock(k))))
    ensures r.RemoveActiveSchedule? && w.oracle(k).ok && a.instances.Some?
            && !w.oracle(k + 1).ok && w.oracle(k + 2).ok ==>
              Finish(r, a, Fetching, w, k) == (a, Some(Stopped(r, Failed, a.instances.value, -1, w.clock(k))))
  {
    if r.RemoveActiveSchedule? && w.oracle(k).ok && a.instances.Some? {
      assert Finish(r, a, Fetching, w, k) == Finish(r, a, HaveApp(w.clock(k), a.instances.value), w, k + 1);
    }
  }

  class Engine {
    var instances: map<string, int>
    var schedules: map<string, Schedule>
    var cooldowns: map<string, int>
    var history: seq<Record>

    function App(app: string): AppState
      reads this
    {
      AppState(Get(instances, app), Get(schedules, app), Get(cooldowns, app))
    }

    constructor ()
      ensures history == []
    {
      instances, schedules, cooldowns, history := map[], map[], map[], [];
    }

    method SaveScalingHistory(record: Record, o: Oracle)
      modifies this`history
      ensures history == if o.ok then old(history) + [record] else old(history)
    {
      if o.ok {
        history := history + [record];
      }
    }

    method SetAppInstances(app: string, count: int, o: Oracle) returns (ok: bool)
      modifies this`instances
      ensures ok == o.ok
      ensures instances == if o.ok || o.applied then old(instances)[app := count] else old(instances)
    {
      if o.ok || o.applied {
        instances := instances[app := count];
      }
      return o.ok;
    }

    method UpdateScalingCooldownExpireTime(app: string, expireAt: int, deleting: Oracle, inserting: Oracle)
      returns (ok: bool)
      modifies this`cooldowns
      ensures ok ==> app in cooldowns && cooldowns[app] == expireAt
      ensures ok <==> deleting.ok && inserting.ok
      ensures cooldowns == if !deleting.ok then old(cooldowns)
                           else if inserting.ok then old(cooldowns)[app := expireAt] else old(cooldowns) - {app}
    {
      if !deleting.ok {
        return false;
      }
      cooldowns := cooldowns - {app};
      if inserting.ok {
        cooldowns := cooldowns[app := expireAt];
      }
      return inserting.ok;
    }

    /** Saves the entry, which is the last statement of every operation that got that far. */
    method Conclude(ghost r: Request, record: Record, w: World, k: nat)
      requires Fits(r, Saving(record))
      modifies this`history
      ensures Ends(Finish(r, old(App(r.app)), Saving(record), w, k), r.app, old(history))
    {
      SaveScalingHistory(record, w.oracle(k));
    }

    /** The app and the history are as an operation left them. */
    ghost predicate Ends(result: (AppState, Option<Record>), app: string, before: seq<Record>)
      reads this
    {
      App(app) == result.0 && history == if result.1.Some? then before + [result.1.value] else before
    }

    method Scale(app: string, adjustment: Adjustment, coolDownSeconds: int, now: int, w: World)
      modifies this
      ensures Ends(Finish(Request.Scale(app, adjustment, coolDownSeconds), old(App(app)), Locked(now), w, 0),
                   app, old(history))
      ensures forall b :: b != app ==> App(b) == old(App(b))
    {
      var r := Request.Scale(app, adjustment, coolDownSeconds);
      ghost var goal := Finish(r, App(app), Locked(now), w, 0);
      if !w.oracle(0).ok || app !in instances {
        assert goal == Finish(r, App(app), Saving(FailedEntry(r, -1, now)), w, 1);
        Conclude(r, FailedEntry(r, -1, now), w, 1);
        return;
      }
      var count := instances[app];
      if !w.oracle(0).started {
        assert goal == Finish(r, App(app), Saving(Entry(r, Ignored, count, count, now, 0, w.defaultSeconds)), w, 1);
        Conclude(r, Entry(r, Ignored, count, count, now, 0, w.defaultSeconds), w, 1);
        return;
      }
      assert goal == Finish(r, App(app), HaveApp(now, count), w, 1);
      if !w.oracle(1).ok {
        Conclude(r, FailedEntry(r, count, now), w, 2);
        return;
      }
      var checkedAt := w.clock(1);
      if app in cooldowns && !(cooldowns[app] < checkedAt) {
        Conclude(r, Entry(r, Ignored, count, count, now, 0, w.defaultSeconds), w, 2);
        return;
      }
      assert goal == Finish(r, App(app), CheckedCooldown(now, count, checkedAt), w, 2);
      ScaleWithin(r, count, checkedAt, now, w);
    }

    /** The second half of Scale: limits, the change itself, the cooldown. */
    method ScaleWithin(r: Request, count: int, checkedAt: int, now: int, w: World)
      requires r.Scale?
      modifies this
      ensures Ends(Finish(r, old(App(r.app)), CheckedCooldown(now, count, checkedAt), w, 2), r.app, old(history))
      ensures forall b :: b != r.app ==> App(b) == old(App(b))
    {
      ghost var goal := Finish(r, App(r.app), CheckedCooldown(now, count, checkedAt), w, 2);
      var computed := ComputeNewInstances(count, r.adjustment);
      if !w.oracle(2).ok || computed.None? {
        Conclude(r, FailedEntry(r, count, now), w, 3);
        return;
      }
      var instanceMin, instanceMax;
      if r.app in schedules {
        instanceMin, instanceMax := schedules[r.app].min, schedules[r.app].max;
      } else if w.oracle(2).policy.None? {
        Conclude(r, FailedEntry(r, count, now), w, 3);
        return;
      } else {
        instanceMin, instanceMax := w.oracle(2).policy.value.min, w.oracle(2).policy.value.max;
      }
      var newInstances := computed.value;
      if newInstances < instanceMin {
        newInstances := instanceMin;
      } else if newInstances > instanceMax {
        newInstances := instanceMax;
      }
      if newInstances == count {
        Conclude(r, Entry(r, Ignored, count, count, now, checkedAt, w.defaultSeconds), w, 3);
        return;
      }
      var entry := Entry(r, Succeeded, count, newInstances, now, checkedAt, w.defaultSeconds);
      assert goal == Finish(r, App(r.app), Setting(entry), w, 3);
      ghost var a := App(r.app);
      var ok := SetAppInstances(r.app, newInstances, w.oracle(3));
      if !ok {
        assert goal == Finish(r, App(r.app), Saving(entry.(status := Failed)), w, 4);
        Conclude(r, entry.(status := Failed), w, 4);
        return;
      }
      StartCooldown(r, entry, w);
    }

    /** The end of a successful Scale. */
    method StartCooldown(r: Request, entry: Record, w: World)
      requires r.Scale?
      modifies this
      ensures Ends(Finish(r, old(App(r.app)), DeletingCooldown(entry), w, 4), r.app, old(history))
      ensures forall b :: b != r.app ==> App(b) == old(App(b))
    {
      ghost var a := App(r.app);
      var cooled := UpdateScalingCooldownExpireTime(r.app, ExpireAt(entry), w.oracle(4), w.oracle(5));
      if w.oracle(4).ok {
        assert Finish(r, a, DeletingCooldown(entry), w, 4)
            == Finish(r, a.(cooldown := None), InsertingCooldown(entry), w, 5);
        assert App(r.app).cooldown == if w.oracle(5).ok then Some(ExpireAt(entry)) else None;
        Conclude(r, if cooled then entry.(cooled := true) else entry, w, 6);
      } else {
        Conclude(r, entry, w, 5);
      }
    }

    /** Takes over the app's schedule and moves its count within the new limits. */
    method SetActiveSchedule(app: string, schedule: Schedule, now: int, w: World)
      modifies this
      ensures Ends(Finish(Request.SetActiveSchedule(app, schedule), old(App(app)), Locked(now), w, 0),
                   app, old(history))
      ensures forall b :: b != app ==> App(b) == old(App(b))
    {
      var r := Request.SetActiveSchedule(app, schedule);
      ghost var goal := Finish(r, App(app), Locked(now), w, 0);
      if !w.oracle(0).ok {
        return;
      }
      if app in schedules && schedules[app].id == schedule.id {
        return;
      }
      assert goal == Finish(r, App(app), DeletingSchedule, w, 1);
      if !w.oracle(1).ok {
        return;
      }
      schedules := schedules - {app};
      assert goal == Finish(r, App(app), InsertingSchedule, w, 2);
      if !w.oracle(2).ok {
        return;
      }
      schedules := schedules[app := schedule];
      assert goal == Finish(r, App(app), Fetching, w, 3);
      MoveToSchedule(r, w);
    }

    /** Once the schedule is in the table: its limits, change, entry. */
    method MoveToSchedule(r: Request, w: World)
      requires r.SetActiveSchedule?
      modifies this
      ensures Ends(Finish(r, old(App(r.app)), Fetching, w, 3), r.app, old(history))
      ensures forall b :: b != r.app ==> App(b) == old(App(b))
    {
      if !w.oracle(3).ok || r.app !in instances {
        Conclude(r, FailedEntry(r, -1, w.clock(3)), w, 4);
        return;
      }
      var schedule := r.schedule;
      var instanceMin := if schedule.min > schedule.minInitial then schedule.min else schedule.minInitial;
      MoveWithin(r, instances[r.app], instanceMin, schedule.max, w.clock(3), w, 4);
    }

    /** Gives up the app's schedule and moves its count within the limits of its policy. */
    method RemoveActiveSchedule(app: string, scheduleId: string, now: int, w: World)
      modifies this
      ensures Ends(Finish(Request.RemoveActiveSchedule(app, scheduleId), old(App(app)), Locked(now), w, 0),
                   app, old(history))
      ensures forall b :: b != app ==> App(b) == old(App(b))
    {
      var r := Request.RemoveActiveSchedule(app, scheduleId);
      ghost var goal := Finish(r, App(app), Locked(now), w, 0);
      if !w.oracle(0).ok || app !in schedules || schedules[app].id != scheduleId {
        return;
      }
      assert goal == Finish(r, App(app), DeletingSchedule, w, 1);
      if !w.oracle(1).ok {
        return;
      }
      schedules := schedules - {app};
      assert goal == Finish(r, App(app), Fetching, w, 2);
      if !w.oracle(2).ok || app !in instances {
        Conclude(r, FailedEntry(r, -1, w.clock(2)), w, 3);
        return;
      }
      assert goal == Finish(r, App(app), HaveApp(w.clock(2), instances[app]), w, 3);
      if !w.oracle(3).ok {
        Conclude(r, FailedEntry(r, instances[app], w.clock(2)), w, 4);
        return;
      }
      if w.oracle(3).policy.None? {
        Conclude(r, Entry(r, Ignored, instances[app], -1, w.clock(2), 0, 0), w, 4);
        return;
      }
      var policy := w.oracle(3).policy.value;
      MoveWithin(r, instances[app], policy.min, policy.max, w.clock(2), w, 4);
    }

    /** The end both schedule operations share: clamp the count, set it if that changes it, save the entry. */
    method MoveWithin(r: Request, count: int, instanceMin: int, instanceMax: int, now: int, w: World, k: nat)
      requires !r.Scale?
      modifies this
      ensures Ends(Finish(r, old(App(r.app)), Decide(r, count, count, instanceMin, instanceMax, now, 0, 0), w, k),
                   r.app, old(history))
      ensures forall b :: b != r.app ==> App(b) == old(App(b))
    {
      var newInstances := count;
      if newInstances < instanceMin {
        newInstances := instanceMin;
      } else if newInstances > instanceMax {
        newInstances := instanceMax;
      }
      if newInstances == count {
        Conclude(r, Entry(r, Ignored, count, count, now, 0, 0), w, k);
        return;
      }
      var entry := Entry(r, Succeeded, count, newInstances, now, 0, 0);
      var ok := SetAppInstances(r.app, newInstances, w.oracle(k));
      Conclude(r, if ok then entry else entry.(status := Failed), w, k + 1);
    }
  }
}
