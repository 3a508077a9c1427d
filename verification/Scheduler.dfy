/** The scheduler's tables and its Quartz jobs: schedules, start jobs, end jobs and active rows. */
module Schedulers {
  import opened Common

  datatype Kind = SPECIFIC_DATE | RECURRING

  /** A stored schedule: end is when one for a specific date is over, definition stands for the rest of the row. */
  datatype Schedule = Schedule(app: string, guid: string, kind: Kind, definition: string, end: int)

  /** Job keys: the name carries the id, for end jobs also the start identifier; the group of start jobs is the kind. */
  datatype StartKey = StartKey(id: int, kind: Kind)
  datatype EndKey = EndKey(id: int, startJobIdentifier: int)

  datatype Active = Active(app: string, startJobIdentifier: int)

  /**
   * Both schedule tables draw their ids from one sequence. startJobs are the stored start jobs, which outlive their
   * triggers; endJobs are those still to fire. Each carries its app.
   */
  datatype State = State(
    schedules: map<int, Schedule>, startJobs: map<StartKey, string>, endJobs: map<EndKey, string>,
    active: map<int, Active>, nextId: int)

  ghost predicate StartJobsMatch(s: State) {
    && (forall k :: k in s.startJobs ==>
          && k.id in s.schedules
          && k.kind == s.schedules[k.id].kind
          && s.startJobs[k] == s.schedules[k.id].app)
    && (forall id :: id in s.schedules ==> StartKey(id, s.schedules[id].kind) in s.startJobs)
  }

  ghost predicate EndJobsMatch(s: State) {
    && (forall k :: k in s.endJobs ==>
          && k.id in s.active
          && k.startJobIdentifier == s.active[k.id].startJobIdentifier
          && s.endJobs[k] == s.active[k.id].app)
    && (forall id :: id in s.active ==> EndKey(id, s.active[id].startJobIdentifier) in s.endJobs)
  }

  ghost predicate ActiveRowsMatch(s: State) {
    && (forall id :: id in s.active ==> id in s.schedules && s.schedules[id].app == s.active[id].app)
    && (forall id, jd :: id in s.active && jd in s.active && s.active[id].app == s.active[jd].app ==> id == jd)
  }

  /** Start jobs pair with schedules, end jobs with active rows, and no app has two active rows. */
  ghost predicate Consistent(s: State) {
    && StartJobsMatch(s)
    && EndJobsMatch(s)
    && ActiveRowsMatch(s)
    && (forall id :: id in s.schedules ==> id < s.nextId)
  }

  // ----- The operations as state changes -----

  function Created(s: State, schedule: Schedule): State {
    s.(schedules := s.schedules[s.nextId := schedule],
       startJobs := s.startJobs[StartKey(s.nextId, schedule.kind) := schedule.app],
       nextId := s.nextId + 1)
  }

  function CreatedAll(s: State, list: seq<Schedule>): State {
    if list == [] then s else Created(CreatedAll(s, list[..|list| - 1]), list[|list| - 1])
  }

  /** Nothing of the apps left, everything else as it was. */
  function Deleted(s: State, apps: set<string>): State {
    State(map id | id in s.schedules && s.schedules[id].app !in apps :: s.schedules[id],
          map k | k in s.startJobs && s.startJobs[k] !in apps :: s.startJobs[k],
          map k | k in s.endJobs && s.endJobs[k] !in apps :: s.endJobs[k],
          map id | id in s.active && s.active[id].app !in apps :: s.active[id],
          s.nextId)
  }

  predicate HasActive(s: State, app: string) {
    exists id :: id in s.active && s.active[id].app == app
  }

  function WithoutActive(active: map<int, Active>, app: string): map<int, Active> {
    map id | id in active && active[id].app != app :: active[id]
  }

  function IdsOf(s: State, app: string): set<int> {
    set id | id in s.schedules && s.schedules[id].app == app
  }

  function StartKeysOf(s: State, ids: set<int>): set<StartKey> {
    set id | id in ids && id in s.schedules :: StartKey(id, s.schedules[id].kind)
  }

  /** The end jobs of the active rows of the schedules. */
  function EndKeysOf(s: State, ids: set<int>): set<EndKey> {
    set id | id in ids && id in s.active :: EndKey(id, s.active[id].startJobIdentifier)
  }

  /**
   * Part of a deletion: schedules with their start jobs, and the end jobs of their active rows, which are still
   * there.
   */
  function WithoutSchedules(s: State, ids: set<int>): State {
    s.(schedules := s.schedules - ids, startJobs := s.startJobs - StartKeysOf(s, ids),
       endJobs := s.endJobs - EndKeysOf(s, ids))
  }

  /** What a deletion does in any state; end jobs are found through active rows, so those without a row are missed. */
  function Removed(s: State, app: string): State {
    var t := WithoutSchedules(s, IdsOf(s, app));
    t.(active := WithoutActive(t.active, app))
  }

  /** From s to t, the app's rows, its start jobs and the end jobs of its active rows are gone, and nothing else. */
  ghost predicate IsRemoval(s: State, t: State, app: string) {
    && t.nextId == s.nextId
    && t.schedules == (map id | id in s.schedules && s.schedules[id].app != app :: s.schedules[id])
    && t.active == (map id | id in s.active && s.active[id].app != app :: s.active[id])
    && t.startJobs == (map k | k in s.startJobs && !(k.id in s.schedules && s.schedules[k.id].app == app
                                                     && s.schedules[k.id].kind == k.kind) :: s.startJobs[k])
    && t.endJobs == (map k | k in s.endJobs
                             && !(k.id in s.schedules && s.schedules[k.id].app == app && k.id in s.active
                                  && s.active[k.id].startJobIdentifier == k.startJobIdentifier) :: s.endJobs[k])
  }

  lemma RemovedIsRemoval(s: State, app: string)
    ensures IsRemoval(s, Removed(s, app), app)
  {
    var ids := IdsOf(s, app);
    forall k ensures k in StartKeysOf(s, ids) <==>
                     k.id in s.schedules && s.schedules[k.id].app == app && s.schedules[k.id].kind == k.kind {
    }
    forall k ensures k in EndKeysOf(s, ids) <==>
                     k.id in s.schedules && s.schedules[k.id].app == app && k.id in s.active
                     && s.active[k.id].startJobIdentifier == k.startJobIdentifier {
    }
  }

  /** Where jobs and rows match, that is all there is of the app. */
  lemma RemovedIsDeleted(s: State, app: string)
    requires StartJobsMatch(s) && ActiveRowsMatch(s)
    requires forall k :: k in s.endJobs ==>
      k.id in s.active && s.active[k.id] == Active(s.endJobs[k], k.startJobIdentifier)
    ensures Removed(s, app) == Deleted(s, {app})
  {
    var ids := IdsOf(s, app);
    forall k | k in s.startJobs ensures k in StartKeysOf(s, ids) <==> s.startJobs[k] == app {
      assert k.id in ids <==> s.startJobs[k] == app;
    }
    forall k | k in s.endJobs ensures k in EndKeysOf(s, ids) <==> s.endJobs[k] == app {
      assert k.id in ids <==> s.endJobs[k] == app;
    }
    assert Removed(s, app).schedules == Deleted(s, {app}).schedules;
    assert Removed(s, app).startJobs == Deleted(s, {app}).startJobs;
    assert Removed(s, app).endJobs == Deleted(s, {app}).endJobs;
  }

  /** What a start job firing at fireTime checks: no conflicting active schedule, no specific date already over. */
  predicate MayStart(s: State, k: StartKey, fireTime: int, endTime: int)
    requires k in s.startJobs
  {
    !HasActive(s, s.startJobs[k]) && (k.kind.SPECIFIC_DATE? ==> fireTime < endTime)
  }

  /** What it stores after that: the row, replacing the app's others, and the end job. */
  function StoredNow(s: State, id: int, app: string, startJobIdentifier: int): State {
    s.(active := WithoutActive(s.active, app)[id := Active(app, startJobIdentifier)],
       endJobs := s.endJobs[EndKey(id, startJobIdentifier) := app])
  }

  /** A firing that nothing interrupts. */
  function StartFired(s: State, k: StartKey, fireTime: int, endTime: int): State
    requires k in s.startJobs
  {
    if MayStart(s, k, fireTime, endTime) then StoredNow(s, k.id, s.startJobs[k], fireTime) else s
  }

  function EndFired(s: State, k: EndKey): State
    requires k in s.endJobs
  {
    s.(endJobs := s.endJobs - {k},
       active := if k.id in s.active && s.active[k.id].startJobIdentifier == k.startJobIdentifier
                 then s.active - {k.id} else s.active)
  }

  // ----- What every operation keeps -----

  lemma CreatedConsistent(s: State, schedule: Schedule)
    requires Consistent(s)
    ensures Consistent(Created(s, schedule))
  {
  }

  lemma {:induction false} CreatedAllConsistent(s: State, list: seq<Schedule>)
    requires Consistent(s)
    ensures Consistent(CreatedAll(s, list))
  {
    if list != [] {
      CreatedAllConsistent(s, list[..|list| - 1]);
      CreatedConsistent(CreatedAll(s, list[..|list| - 1]), list[|list| - 1]);
    }
  }

  lemma DeletedConsistent(s: State, apps: set<string>)
    requires Consistent(s)
    ensures Consistent(Deleted(s, apps))
  {
  }

  ghost predicate NoOtherRow(s: State, id: int, app: string, startJobIdentifier: int) {
    forall j :: j in s.active && s.active[j].app == app ==>
      j == id && s.active[j].startJobIdentifier == startJobIdentifier
  }

  /** The schedule is there, and no other row of its app is active. */
  ghost predicate RoomFor(s: State, id: int, app: string, startJobIdentifier: int) {
    id in s.schedules && s.schedules[id].app == app && NoOtherRow(s, id, app, startJobIdentifier)
  }

  /** With room, a row is added, or replaced by itself. */
  lemma RowStored(active: map<int, Active>, s: State, id: int, app: string, startJobIdentifier: int)
    requires active == s.active && ActiveRowsMatch(s) && RoomFor(s, id, app, startJobIdentifier)
    ensures WithoutActive(active, app)[id := Active(app, startJobIdentifier)]
            == active[id := Active(app, startJobIdentifier)]
    ensures id in active ==> active[id] == Active(app, startJobIdentifier)
    ensures forall j :: j in active && active[j].app == app ==> j == id
  {
    var row := Active(app, startJobIdentifier);
    var rest := WithoutActive(active, app);
    forall j | j in active && j != id ensures j in rest && rest[j] == active[j] {
      assert active[j].app != app;
    }
    assert rest[id := row] == active[id := row];
  }

  lemma AddedRowMatches(s: State, t: State, id: int, app: string, startJobIdentifier: int)
    requires ActiveRowsMatch(s) && RoomFor(s, id, app, startJobIdentifier)
    requires t.schedules == s.schedules && t.active == s.active[id := Active(app, startJobIdentifier)]
    ensures ActiveRowsMatch(t)
  {
    RowStored(s.active, s, id, app, startJobIdentifier);
  }

  lemma AddedEndJobMatches(s: State, t: State, id: int, app: string, startJobIdentifier: int)
    requires EndJobsMatch(s) && (id in s.active ==> s.active[id] == Active(app, startJobIdentifier))
    requires t.active == s.active[id := Active(app, startJobIdentifier)]
    requires t.endJobs == s.endJobs[EndKey(id, startJobIdentifier) := app]
    ensures EndJobsMatch(t)
  {
  }

  lemma StoredNowConsistent(s: State, t: State, id: int, app: string, startJobIdentifier: int)
    requires Consistent(s) && t == StoredNow(s, id, app, startJobIdentifier)
    requires RoomFor(s, id, app, startJobIdentifier)
    ensures Consistent(t)
  {
    RowStored(s.active, s, id, app, startJobIdentifier);
    AddedRowMatches(s, t, id, app, startJobIdentifier);
    AddedEndJobMatches(s, t, id, app, startJobIdentifier);
  }

  lemma ConsistentOnlyIfRoom(s: State, t: State, id: int, app: string, startJobIdentifier: int)
    requires Consistent(s) && t == StoredNow(s, id, app, startJobIdentifier) && Consistent(t)
    ensures RoomFor(s, id, app, startJobIdentifier)
  {
    assert t.active[id] == Active(app, startJobIdentifier);
    forall j | j in s.active && s.active[j].app == app
      ensures j == id && s.active[j].startJobIdentifier == startJobIdentifier
    {
      assert EndKey(j, s.active[j].startJobIdentifier) in t.endJobs;
    }
  }

  /** Storing keeps the tables consistent exactly when there is room for the row, whatever was checked before. */
  lemma StoredNowIff(s: State, id: int, app: string, startJobIdentifier: int)
    requires Consistent(s)
    ensures Consistent(StoredNow(s, id, app, startJobIdentifier)) <==> RoomFor(s, id, app, startJobIdentifier)
  {
    var t := StoredNow(s, id, app, startJobIdentifier);
    if Consistent(t) {
      ConsistentOnlyIfRoom(s, t, id, app, startJobIdentifier);
    } else if RoomFor(s, id, app, startJobIdentifier) {
      StoredNowConsistent(s, t, id, app, startJobIdentifier);
    }
  }

  lemma StartFiredConsistent(s: State, k: StartKey, fireTime: int, endTime: int)
    requires Consistent(s) && k in s.startJobs
    ensures Consistent(StartFired(s, k, fireTime, endTime))
  {
    StoredNowIff(s, k.id, s.startJobs[k], fireTime);
    assert !HasActive(s, s.startJobs[k]) ==> forall j :: j in s.active ==> s.active[j].app != s.startJobs[k];
  }

  lemma EndFiredConsistent(s: State, k: EndKey)
    requires Consistent(s) && k in s.endJobs
    ensures Consistent(EndFired(s, k))
    ensures k.id !in EndFired(s, k).active
  {
  }

  /** Once a row is stored there is room for another app's, or for the same once more. */
  lemma RoomAfterFirst(s: State, first: State, j: int, jApp: string, jTime: int, k: int, kApp: string, kTime: int)
    requires k in s.schedules && s.schedules[k].app == kApp
    requires forall x :: x in s.active ==> s.active[x].app != jApp && s.active[x].app != kApp
    requires first.schedules == s.schedules && first.active == s.active[j := Active(jApp, jTime)]
    ensures RoomFor(first, k, kApp, kTime) <==> jApp != kApp || (j == k && jTime == kTime)
  {
    assert first.active[j] == Active(jApp, jTime);
  }

  /**
   * Two firings that both checked before either stored: harmless exactly for different apps, or for one firing twice.
   */
  lemma OverlapIff(s: State, j: StartKey, k: StartKey, jTime: int, kTime: int, jEnd: int, kEnd: int)
    requires Consistent(s) && j in s.startJobs && k in s.startJobs
    requires MayStart(s, j, jTime, jEnd) && MayStart(s, k, kTime, kEnd)
    ensures var first := StoredNow(s, j.id, s.startJobs[j], jTime);
            Consistent(StoredNow(first, k.id, s.startJobs[k], kTime))
            <==> s.startJobs[j] != s.startJobs[k] || (j.id == k.id && jTime == kTime)
  {
    var app, first := s.startJobs[j], StoredNow(s, j.id, s.startJobs[j], jTime);
    assert forall x :: x in s.active ==> s.active[x].app != app && s.active[x].app != s.startJobs[k];
    assert RoomFor(s, j.id, app, jTime);
    RowStored(s.active, s, j.id, app, jTime);
    StoredNowConsistent(s, first, j.id, app, jTime);
    RoomAfterFirst(s, first, j.id, app, jTime, k.id, s.startJobs[k], kTime);
    StoredNowIff(first, k.id, s.startJobs[k], kTime);
  }

  /** A deletion of the app between the check and the store always does harm. */
  lemma DeletionBeforeStore(s: State, k: StartKey, fireTime: int)
    requires Consistent(s) && k in s.startJobs
    ensures !Consistent(StoredNow(Deleted(s, {s.startJobs[k]}), k.id, s.startJobs[k], fireTime))
  {
    DeletedConsistent(s, {s.startJobs[k]});
    StoredNowIff(Deleted(s, {s.startJobs[k]}), k.id, s.startJobs[k], fireTime);
  }

  /** Two such firings from a state that can be reached. */
  lemma OverlappingFiringsLeaveAnEndJob(app: string)
    ensures var one, two := Schedule(app, "g", RECURRING, "a", 0), Schedule(app, "g", RECURRING, "b", 0);
            var s := CreatedAll(State(map[], map[], map[], map[], 1), [one, two]);
            && StartKey(1, RECURRING) in s.startJobs && MayStart(s, StartKey(1, RECURRING), 10, 0)
            && StartKey(2, RECURRING) in s.startJobs && MayStart(s, StartKey(2, RECURRING), 11, 0)
            && !Consistent(StoredNow(StoredNow(s, 1, app, 10), 2, app, 11))
  {
    var one, two := Schedule(app, "g", RECURRING, "a", 0), Schedule(app, "g", RECURRING, "b", 0);
    var empty := State(map[], map[], map[], map[], 1);
    assert [one, two][..1] == [one] && [one][..0] == [];
    assert CreatedAll(empty, [one]) == Created(empty, one);
    var s := CreatedAll(empty, [one, two]);
    assert s == Created(Created(empty, one), two);
    CreatedAllConsistent(empty, [one, two]);
    OverlapIff(s, StartKey(1, RECURRING), StartKey(2, RECURRING), 10, 11, 0, 0);
  }

  // ----- Runs in which firings overlap with one another and with everything else -----

  /** A firing that has passed its check; saved says whether its row is stored, its end job being still to come. */
  datatype Firing = Firing(id: int, app: string, startJobIdentifier: int, saved: bool)

  datatype System = System(tables: State, firings: map<nat, Firing>)

  function KeyOf(f: Firing): EndKey {
    EndKey(f.id, f.startJobIdentifier)
  }

  datatype Operation =
    | Create(list: seq<Schedule>)
    | Delete(app: string)
    | FireEnd(endKey: EndKey)
    | Check(f: nat, startKey: StartKey, fireTime: int, endTime: int)
    | SaveActive(f: nat)
    | ScheduleEnd(f: nat)

  /** A job can fire if it is stored. The start job of a specific date carries the end of its schedule. */
  predicate Possible(s: System, o: Operation) {
    match o
    case Create(_) => true
    case Delete(_) => true
    case FireEnd(k) => k in s.tables.endJobs
    case Check(f, k, _, endTime) =>
      && f !in s.firings && k in s.tables.startJobs
      && (k.kind.SPECIFIC_DATE? && k.id in s.tables.schedules ==> endTime == s.tables.schedules[k.id].end)
    case SaveActive(f) => f in s.firings && !s.firings[f].saved
    case ScheduleEnd(f) => f in s.firings && s.firings[f].saved
  }

  function Apply(s: System, o: Operation): System
    requires Possible(s, o)
  {
    match o
    case Create(list) => s.(tables := CreatedAll(s.tables, list))
    case Delete(app) => s.(tables := Removed(s.tables, app))
    case FireEnd(k) => s.(tables := EndFired(s.tables, k))
    case Check(f, k, fireTime, endTime) =>
      if !MayStart(s.tables, k, fireTime, endTime) then s
      else s.(firings := s.firings[f := Firing(k.id, s.tables.startJobs[k], fireTime, false)])
    case SaveActive(f) =>
      var x := s.firings[f];
      var rows := WithoutActive(s.tables.active, x.app)[x.id := Active(x.app, x.startJobIdentifier)];
      System(s.tables.(active := rows), s.firings[f := x.(saved := true)])
    case ScheduleEnd(f) =>
      var x := s.firings[f];
      System(s.tables.(endJobs := s.tables.endJobs[KeyOf(x) := x.app]), s.firings - {f})
  }

  ghost predicate IsRun(states: seq<System>, operations: seq<Operation>) {
    && |states| == |operations| + 1
    && states[0] == System(State(map[], map[], map[], map[], 1), map[])
    && forall i :: 0 <= i < |operations| ==>
         Possible(states[i], operations[i]) && states[i + 1] == Apply(states[i], operations[i])
  }

  /** Schedules come and go at any time, and a stored job can fire at any time, whatever firings are under way. */
  lemma {:induction false} NothingBlocks(s: System, list: seq<Schedule>, app: string, f: nat, fireTime: int)
    ensures Possible(s, Create(list)) && Possible(s, Delete(app))
    ensures forall k :: k in s.tables.endJobs ==> Possible(s, FireEnd(k))
    ensures f in s.firings ==> Possible(s, if s.firings[f].saved then ScheduleEnd(f) else SaveActive(f))
    ensures f !in s.firings ==>
              forall k :: k in s.tables.startJobs ==>
                if k.id in s.tables.schedules then Possible(s, Check(f, k, fireTime, s.tables.schedules[k.id].end))
                else forall end :: Possible(s, Check(f, k, fireTime, end))
  {
  }

  ghost predicate IsSaved(s: System, f: nat) {
    f in s.firings && s.firings[f].saved
  }

  /** Consistent, counting an end job that a firing is about to schedule as scheduled. */
  ghost predicate Paired(s: System) {
    && StartJobsMatch(s.tables)
    && ActiveRowsMatch(s.tables)
    && (forall id :: id in s.tables.schedules ==> id < s.tables.nextId)
    && (forall k :: k in s.tables.endJobs ==>
          k.id in s.tables.active && s.tables.active[k.id] == Active(s.tables.endJobs[k], k.startJobIdentifier))
    && (forall f :: IsSaved(s, f) ==>
          && s.firings[f].id in s.tables.active
          && s.tables.active[s.firings[f].id] == Active(s.firings[f].app, s.firings[f].startJobIdentifier))
    && (forall id :: id in s.tables.active ==> EndsLater(s, EndKey(id, s.tables.active[id].startJobIdentifier)))
  }

  ghost predicate EndsLater(s: System, k: EndKey) {
    k in s.tables.endJobs || exists f :: IsSaved(s, f) && KeyOf(s.firings[f]) == k
  }

  lemma PairedIsConsistent(s: System)
    requires forall f :: !IsSaved(s, f)
    ensures Paired(s) <==> Consistent(s.tables)
  {
  }

  /** What the code takes for granted between a check and the end job it leads to. */
  ghost predicate Harmless(s: System, o: Operation)
    requires Possible(s, o)
  {
    match o
    case Delete(app) => forall f :: IsSaved(s, f) ==> s.firings[f].app != app
    case FireEnd(k) => forall f :: IsSaved(s, f) ==> KeyOf(s.firings[f]) != k
    case SaveActive(f) =>
      var x := s.firings[f];
      RoomFor(s.tables, x.id, x.app, x.startJobIdentifier)
    case _ => true
  }

  lemma CreatePaired(s: System, list: seq<Schedule>)
    requires Paired(s)
    ensures Paired(s.(tables := CreatedAll(s.tables, list)))
  {
    if list != [] {
      CreatePaired(s, list[..|list| - 1]);
      CreateOnePaired(s.(tables := CreatedAll(s.tables, list[..|list| - 1])), list[|list| - 1]);
    }
  }

  lemma EndsLaterStays(s: System, t: System, k: EndKey)
    requires EndsLater(s, k) && (k in s.tables.endJobs ==> k in t.tables.endJobs)
    requires forall g :: IsSaved(s, g) ==> IsSaved(t, g) && KeyOf(t.firings[g]) == KeyOf(s.firings[g])
    ensures EndsLater(t, k)
  {
    if k !in s.tables.endJobs {
      var g :| IsSaved(s, g) && KeyOf(s.firings[g]) == k;
      assert IsSaved(t, g) && KeyOf(t.firings[g]) == k;
    }
  }

  lemma CreateOnePaired(s: System, schedule: Schedule)
    requires Paired(s)
    ensures Paired(s.(tables := Created(s.tables, schedule)))
  {
    var t := s.(tables := Created(s.tables, schedule));
    assert forall f :: IsSaved(t, f) <==> IsSaved(s, f);
    forall id | id in t.tables.active ensures EndsLater(t, EndKey(id, t.tables.active[id].startJobIdentifier)) {
      EndsLaterStays(s, t, EndKey(id, s.tables.active[id].startJobIdentifier));
    }
  }

  lemma DeleteKeepsPaired(s: System, t: System, app: string)
    requires Paired(s) && Harmless(s, Delete(app)) && t == s.(tables := Deleted(s.tables, {app}))
    ensures Paired(t)
  {
    assert forall f :: IsSaved(t, f) <==> IsSaved(s, f);
    forall id | id in t.tables.active ensures EndsLater(t, EndKey(id, t.tables.active[id].startJobIdentifier)) {
      EndsLaterStays(s, t, EndKey(id, s.tables.active[id].startJobIdentifier));
    }
  }

  lemma PairedOnlyIfHarmlessDelete(s: System, t: System, app: string)
    requires Paired(s) && t == s.(tables := Deleted(s.tables, {app})) && Paired(t)
    ensures Harmless(s, Delete(app))
  {
    forall f | IsSaved(s, f) ensures s.firings[f].app != app {
      assert IsSaved(t, f);
    }
  }

  lemma FireEndKeepsPaired(s: System, t: System, k: EndKey)
    requires Paired(s) && k in s.tables.endJobs && Harmless(s, FireEnd(k)) && t == s.(tables := EndFired(s.tables, k))
    ensures Paired(t)
  {
    assert forall f :: IsSaved(t, f) <==> IsSaved(s, f);
    forall id | id in t.tables.active ensures EndsLater(t, EndKey(id, t.tables.active[id].startJobIdentifier)) {
      EndsLaterStays(s, t, EndKey(id, s.tables.active[id].startJobIdentifier));
    }
  }

  lemma PairedOnlyIfHarmlessFireEnd(s: System, t: System, k: EndKey)
    requires Paired(s) && k in s.tables.endJobs && t == s.(tables := EndFired(s.tables, k)) && Paired(t)
    ensures Harmless(s, FireEnd(k))
  {
    forall f | IsSaved(s, f) ensures KeyOf(s.firings[f]) != k {
      assert IsSaved(t, f);
    }
  }

  lemma SaveKeepsEnds(s: System, t: System, f: nat)
    requires Paired(s) && Possible(s, SaveActive(f)) && t == Apply(s, SaveActive(f))
    ensures forall id :: id in t.tables.active ==> EndsLater(t, EndKey(id, t.tables.active[id].startJobIdentifier))
  {
    var x := s.firings[f];
    forall id | id in t.tables.active ensures EndsLater(t, EndKey(id, t.tables.active[id].startJobIdentifier)) {
      if id == x.id {
        assert IsSaved(t, f) && KeyOf(t.firings[f]) == EndKey(id, x.startJobIdentifier);
      } else {
        EndsLaterStays(s, t, EndKey(id, s.tables.active[id].startJobIdentifier));
      }
    }
  }

  lemma SaveKeepsPaired(s: System, t: System, f: nat)
    requires Paired(s) && Possible(s, SaveActive(f)) && Harmless(s, SaveActive(f)) && t == Apply(s, SaveActive(f))
    ensures Paired(t)
  {
    var x := s.firings[f];
    RowStored(s.tables.active, s.tables, x.id, x.app, x.startJobIdentifier);
    AddedRowMatches(s.tables, t.tables, x.id, x.app, x.startJobIdentifier);
    assert forall g :: IsSaved(t, g) <==> IsSaved(s, g) || g == f;
    SaveKeepsEnds(s, t, f);
  }

  lemma PairedOnlyIfHarmlessSave(s: System, f: nat)
    requires Paired(s) && Possible(s, SaveActive(f)) && Paired(Apply(s, SaveActive(f)))
    ensures Harmless(s, SaveActive(f))
  {
    var x, t := s.firings[f], Apply(s, SaveActive(f));
    forall j | j in s.tables.active && s.tables.active[j].app == x.app
      ensures j == x.id && s.tables.active[j].startJobIdentifier == x.startJobIdentifier
    {
      var k := EndKey(j, s.tables.active[j].startJobIdentifier);
      assert EndsLater(s, k);
      if k !in s.tables.endJobs {
        var g :| IsSaved(s, g) && KeyOf(s.firings[g]) == k;
        assert IsSaved(t, g);
      }
    }
    assert t.tables.active[x.id].app == x.app;
  }

  lemma ScheduleEndPaired(s: System, f: nat)
    requires Paired(s) && Possible(s, ScheduleEnd(f))
    ensures Paired(Apply(s, ScheduleEnd(f)))
  {
    var t := Apply(s, ScheduleEnd(f));
    assert IsSaved(s, f);
    assert forall g :: IsSaved(t, g) <==> IsSaved(s, g) && g != f;
    forall id | id in t.tables.active ensures EndsLater(t, EndKey(id, t.tables.active[id].startJobIdentifier)) {
      var k := EndKey(id, s.tables.active[id].startJobIdentifier);
      assert EndsLater(s, k);
      if k !in t.tables.endJobs {
        var g :| IsSaved(s, g) && KeyOf(s.firings[g]) == k;
        assert IsSaved(t, g);
      }
    }
  }

  lemma CheckPaired(s: System, o: Operation)
    requires Paired(s) && o.Check? && Possible(s, o)
    ensures Paired(Apply(s, o))
  {
    var t := Apply(s, o);
    assert forall g :: IsSaved(t, g) <==> IsSaved(s, g);
    forall id | id in t.tables.active ensures EndsLater(t, EndKey(id, t.tables.active[id].startJobIdentifier)) {
      EndsLaterStays(s, t, EndKey(id, s.tables.active[id].startJobIdentifier));
    }
  }

  lemma StepPairedIff(s: System, o: Operation)
    requires Paired(s) && Possible(s, o)
    ensures Paired(Apply(s, o)) <==> Harmless(s, o)
  {
    match o
    case Create(list) => CreatePaired(s, list);
    case Delete(app) =>
      RemovedIsDeleted(s.tables, app);
      if Harmless(s, o) {
        DeleteKeepsPaired(s, Apply(s, o), app);
      } else if Paired(Apply(s, o)) {
        PairedOnlyIfHarmlessDelete(s, Apply(s, o), app);
      }
    case FireEnd(k) =>
      if Harmless(s, o) {
        FireEndKeepsPaired(s, Apply(s, o), k);
      } else if Paired(Apply(s, o)) {
        PairedOnlyIfHarmlessFireEnd(s, Apply(s, o), k);
      }
    case Check(_, _, _, _) => CheckPaired(s, o);
    case SaveActive(f) =>
      if Harmless(s, o) {
        SaveKeepsPaired(s, Apply(s, o), f);
      } else if Paired(Apply(s, o)) {
        PairedOnlyIfHarmlessSave(s, f);
      }
    case ScheduleEnd(f) => ScheduleEndPaired(s, f);
  }

  lemma {:induction false} HarmlessKeepsPaired(states: seq<System>, operations: seq<Operation>, i: nat)
    requires IsRun(states, operations) && i < |states|
    requires forall k :: 0 <= k < i ==> Harmless(states[k], operations[k])
    ensures Paired(states[i])
  {
    if i > 0 {
      HarmlessKeepsPaired(states, operations, i - 1);
      StepPairedIff(states[i - 1], operations[i - 1]);
    }
  }

  /**
   * For every interleaving of checks, stores, end jobs, creations and deletions: jobs and rows pair up in all states of
   * the run exactly when every single step is harmless.
   */
  lemma {:induction false} ConsistentExactlyIf(states: seq<System>, operations: seq<Operation>)
    requires IsRun(states, operations)
    ensures (forall i :: 0 <= i < |states| ==> Paired(states[i]))
            <==> forall i :: 0 <= i < |operations| ==> Harmless(states[i], operations[i])
  {
    if forall i :: 0 <= i < |states| ==> Paired(states[i]) {
      forall i | 0 <= i < |operations| ensures Harmless(states[i], operations[i]) {
        StepPairedIff(states[i], operations[i]);
        assert states[i + 1] == Apply(states[i], operations[i]);
      }
    }
    if forall i :: 0 <= i < |operations| ==> Harmless(states[i], operations[i]) {
      forall i | 0 <= i < |states| ensures Paired(states[i]) {
        HarmlessKeepsPaired(states, operations, i);
      }
    }
  }

  // ----- Where rows and end jobs come from -----

  lemma {:induction false} CreationMatches(s: State, list: seq<Schedule>)
    requires StartJobsMatch(s) && forall id :: id in s.schedules ==> id < s.nextId
    ensures var t := CreatedAll(s, list);
            StartJobsMatch(t) && forall id :: id in t.schedules ==> id < t.nextId
  {
    if list != [] {
      CreationMatches(s, list[..|list| - 1]);
    }
  }

  /** Start jobs pair with schedules along every run, whatever overlaps. */
  lemma {:induction false} StartJobsAlwaysMatch(states: seq<System>, operations: seq<Operation>, i: nat)
    requires IsRun(states, operations) && i < |states|
    ensures StartJobsMatch(states[i].tables)
    ensures forall id :: id in states[i].tables.schedules ==> id < states[i].tables.nextId
  {
    if i > 0 {
      var s, o := states[i - 1], operations[i - 1];
      StartJobsAlwaysMatch(states, operations, i - 1);
      assert states[i] == Apply(s, o);
      if o.Create? {
        CreationMatches(s.tables, o.list);
      }
    }
  }

  /** A start job of the app's schedule fires then, while no row of the app is active and the schedule is not over. */
  ghost predicate Starts(s: System, o: Operation, id: int, app: string, fireTime: int) {
    && o.Check? && o.startKey.id == id && o.fireTime == fireTime
    && id in s.tables.schedules && s.tables.schedules[id].app == app
    && s.tables.schedules[id].kind == o.startKey.kind
    && (forall j :: j in s.tables.active ==> s.tables.active[j].app != app)
    && (s.tables.schedules[id].kind.SPECIFIC_DATE? ==> fireTime < s.tables.schedules[id].end)
  }

  ghost predicate StartedBefore(
    states: seq<System>, operations: seq<Operation>, i: nat, id: int, app: string, fireTime: int)
    requires i <= |operations| <= |states|
  {
    exists c :: 0 <= c < i && Starts(states[c], operations[c], id, app, fireTime)
  }

  lemma StartedEarlier(states: seq<System>, operations: seq<Operation>, i: nat, id: int, app: string, fireTime: int)
    requires i < |operations| <= |states| && StartedBefore(states, operations, i, id, app, fireTime)
    ensures StartedBefore(states, operations, i + 1, id, app, fireTime)
  {
    var c :| 0 <= c < i && Starts(states[c], operations[c], id, app, fireTime);
    assert 0 <= c < i + 1 && Starts(states[c], operations[c], id, app, fireTime);
  }

  lemma {:induction false} CreationKeepsRows(s: State, list: seq<Schedule>)
    ensures CreatedAll(s, list).active == s.active && CreatedAll(s, list).endJobs == s.endJobs
  {
    if list != [] {
      CreationKeepsRows(s, list[..|list| - 1]);
    }
  }

  /** A step brings forth no row, end job or firing but by a firing, which only a start job brings forth. */
  lemma {:induction false} OnlyFrom(s: System, o: Operation)
    requires Possible(s, o) && StartJobsMatch(s.tables)
    ensures var t := Apply(s, o);
            && (forall id :: id in t.tables.active ==>
                  || (id in s.tables.active && t.tables.active[id] == s.tables.active[id])
                  || (o.SaveActive? && var x := s.firings[o.f];
                      id == x.id && t.tables.active[id] == Active(x.app, x.startJobIdentifier)))
            && (forall k :: k in t.tables.endJobs ==>
                  || (k in s.tables.endJobs && t.tables.endJobs[k] == s.tables.endJobs[k])
                  || (o.ScheduleEnd? && var x := s.firings[o.f]; k == KeyOf(x) && t.tables.endJobs[k] == x.app))
            && (forall f :: f in t.firings ==>
                  || (f in s.firings && t.firings[f].(saved := s.firings[f].saved) == s.firings[f])
                  || Starts(s, o, t.firings[f].id, t.firings[f].app, t.firings[f].startJobIdentifier))
  {
    if o.Create? {
      CreationKeepsRows(s.tables, o.list);
    }
  }

  /**
   * Along every run, however firings, deletions and end jobs interleave: each active row, each end job and each firing
   * under way goes back to a start job that fired at its start identifier for a schedule of its app, when no row of the
   * app was active and, for a specific date, the schedule was not over.
   */
  lemma {:induction false} RowsAreStarted(states: seq<System>, operations: seq<Operation>, i: nat)
    requires IsRun(states, operations) && i < |states|
    ensures forall id :: id in states[i].tables.active ==>
      StartedBefore(states, operations, i, id, states[i].tables.active[id].app,
                    states[i].tables.active[id].startJobIdentifier)
    ensures forall k :: k in states[i].tables.endJobs ==>
      StartedBefore(states, operations, i, k.id, states[i].tables.endJobs[k], k.startJobIdentifier)
    ensures forall f :: f in states[i].firings ==>
      StartedBefore(states, operations, i, states[i].firings[f].id, states[i].firings[f].app,
                    states[i].firings[f].startJobIdentifier)
  {
    if i > 0 {
      var s, o, t := states[i - 1], operations[i - 1], states[i];
      RowsAreStarted(states, operations, i - 1);
      StartJobsAlwaysMatch(states, operations, i - 1);
      OnlyFrom(s, o);
      forall id, app, time | StartedBefore(states, operations, i - 1, id, app, time)
        ensures StartedBefore(states, operations, i, id, app, time)
      {
        StartedEarlier(states, operations, i - 1, id, app, time);
      }
      forall f | f in t.firings
        ensures StartedBefore(states, operations, i, t.firings[f].id, t.firings[f].app,
                              t.firings[f].startJobIdentifier)
      {
        if Starts(s, o, t.firings[f].id, t.firings[f].app, t.firings[f].startJobIdentifier) {
          assert 0 <= i - 1 < i;
        }
      }
    }
  }

  lemma {:induction false} CreationKeepsIds(s: State, list: seq<Schedule>, id: int)
    requires id < s.nextId
    ensures var t := CreatedAll(s, list);
            && s.nextId <= t.nextId
            && (id in t.schedules <==> id in s.schedules)
            && (id in s.schedules ==> t.schedules[id] == s.schedules[id])
  {
    if list != [] {
      CreationKeepsIds(s, list[..|list| - 1], id);
    }
  }

  /** The schedule a firing has been checked for is there when it stores exactly if its app was not deleted since. */
  lemma {:induction false} ScheduleStaysIff(
    states: seq<System>, operations: seq<Operation>, c: nat, k: nat, id: int, schedule: Schedule)
    requires IsRun(states, operations) && c <= k < |states|
    requires id in states[c].tables.schedules && states[c].tables.schedules[id] == schedule
    requires id < states[c].tables.nextId
    ensures id < states[k].tables.nextId
    ensures id in states[k].tables.schedules ==> states[k].tables.schedules[id] == schedule
    ensures id in states[k].tables.schedules <==> forall i :: c <= i < k ==> operations[i] != Delete(schedule.app)
    decreases k
  {
    if c < k {
      var s, o := states[k - 1], operations[k - 1];
      ScheduleStaysIff(states, operations, c, k - 1, id, schedule);
      assert states[k] == Apply(s, o);
      if o.Create? {
        CreationKeepsIds(s.tables, o.list, id);
      }
    }
  }

  /**
   * In terms of what happened: a firing checked at step c stores harmlessly at step k exactly when its app was not
   * deleted in between and no other row of the app is active.
   */
  lemma SaveHarmlessIff(states: seq<System>, operations: seq<Operation>, c: nat, k: nat, f: nat)
    requires IsRun(states, operations) && c < k < |operations| && Paired(states[c])
    requires operations[c].Check? && operations[c].f == f && operations[k] == SaveActive(f)
    requires var key := operations[c].startKey;
             && key in states[c].tables.startJobs && f in states[k].firings
             && states[k].firings[f].id == key.id && states[k].firings[f].app == states[c].tables.startJobs[key]
    ensures var x := states[k].firings[f];
            Harmless(states[k], operations[k])
            <==> (forall i :: c <= i < k ==> operations[i] != Delete(x.app))
                 && NoOtherRow(states[k].tables, x.id, x.app, x.startJobIdentifier)
  {
    var key := operations[c].startKey;
    ScheduleStaysIff(states, operations, c, k, key.id, states[c].tables.schedules[key.id]);
  }

  /** No firing is interrupted: while one is under way, only its own next step is taken. */
  ghost predicate Serial(states: seq<System>, operations: seq<Operation>)
    requires |states| == |operations| + 1
  {
    forall i :: 0 <= i < |operations| ==>
      states[i].firings == map[] || operations[i].SaveActive? || operations[i].ScheduleEnd?
  }

  ghost predicate OneFiring(s: System) {
    && (forall f, g :: f in s.firings && g in s.firings ==> f == g)
    && (forall f :: f in s.firings && !s.firings[f].saved ==> Harmless(s, SaveActive(f)))
  }

  lemma {:induction false} SerialStep(s: System, o: Operation)
    requires Paired(s) && OneFiring(s) && Possible(s, o)
    requires s.firings == map[] || o.SaveActive? || o.ScheduleEnd?
    ensures Paired(Apply(s, o)) && OneFiring(Apply(s, o))
  {
    assert Harmless(s, o);
    StepPairedIff(s, o);
    if o.Check? && MayStart(s.tables, o.startKey, o.fireTime, o.endTime) {
      assert forall j :: j in s.tables.active ==> s.tables.active[j].app != s.tables.startJobs[o.startKey];
    }
  }

  /** If firings are not interrupted, every reachable state is consistent whenever none is under way. */
  lemma {:induction false} ReachableConsistent(states: seq<System>, operations: seq<Operation>, i: nat)
    requires IsRun(states, operations) && Serial(states, operations) && i < |states|
    ensures Paired(states[i]) && OneFiring(states[i])
    ensures states[i].firings == map[] ==> Consistent(states[i].tables)
  {
    if i > 0 {
      ReachableConsistent(states, operations, i - 1);
      SerialStep(states[i - 1], operations[i - 1]);
    }
    if states[i].firings == map[] {
      PairedIsConsistent(states[i]);
    }
  }

  /** The three steps taken at once are the firing as written. */
  lemma UninterruptedFiring(s: State, f: nat, k: StartKey, fireTime: int, endTime: int)
    requires Possible(System(s, map[]), Check(f, k, fireTime, endTime)) && MayStart(s, k, fireTime, endTime)
    ensures var checked := Apply(System(s, map[]), Check(f, k, fireTime, endTime));
            && Possible(checked, SaveActive(f)) && var saved := Apply(checked, SaveActive(f));
            && Possible(saved, ScheduleEnd(f))
            && Apply(saved, ScheduleEnd(f)) == System(StartFired(s, k, fireTime, endTime), map[])
  {
  }

  ghost predicate NothingOf(s: State, app: string) {
    && (forall id :: id in s.schedules ==> s.schedules[id].app != app)
    && (forall k :: k in s.startJobs ==> s.startJobs[k] != app)
    && (forall k :: k in s.endJobs ==> s.endJobs[k] != app)
    && (forall id :: id in s.active ==> s.active[id].app != app)
  }

  lemma DeletionOf(s: State, app: string)
    ensures IsRemoval(s, Removed(s, app), app)
    ensures Consistent(s) ==>
              Removed(s, app) == Deleted(s, {app}) && NothingOf(Removed(s, app), app) && Consistent(Removed(s, app))
  {
    RemovedIsRemoval(s, app);
    if Consistent(s) {
      RemovedIsDeleted(s, app);
      DeletedConsistent(s, {app});
    }
  }

  // ----- The operations as they are written -----

  function OfKind(s: State, app: string, kind: Kind): set<int> {
    set id | id in s.schedules && s.schedules[id].app == app && s.schedules[id].kind == kind
  }

  function EndJobOf(s: State, id: int): set<EndKey> {
    if id in s.active then {EndKey(id, s.active[id].startJobIdentifier)} else {}
  }

  lemma KeysOfOneMore(s: State, ids: set<int>, id: int)
    requires id in s.schedules
    ensures StartKeysOf(s, ids + {id}) == StartKeysOf(s, ids) + {StartKey(id, s.schedules[id].kind)}
    ensures EndKeysOf(s, ids + {id}) == EndKeysOf(s, ids) + EndJobOf(s, id)
  {
    forall k
      ensures k in StartKeysOf(s, ids + {id}) <==>
              k in StartKeysOf(s, ids) + {StartKey(id, s.schedules[id].kind)}
    {
      assert k in StartKeysOf(s, ids + {id}) <==>
             k.id in ids + {id} && k.id in s.schedules && k.kind == s.schedules[k.id].kind;
    }
    forall k ensures k in EndKeysOf(s, ids + {id}) <==> k in EndKeysOf(s, ids) + EndJobOf(s, id) {
      assert k in EndKeysOf(s, ids + {id}) <==>
             k.id in ids + {id} && k.id in s.active && k.startJobIdentifier == s.active[k.id].startJobIdentifier;
    }
  }

  class Scheduler {
    var schedules: map<int, Schedule>
    var startJobs: map<StartKey, string>
    var endJobs: map<EndKey, string>
    var active: map<int, Active>
    var nextId: int

    function St(): State
      reads this
    {
      State(schedules, startJobs, endJobs, active, nextId)
    }

    constructor ()
      ensures St() == State(map[], map[], map[], map[], 1)
    {
      schedules, startJobs, endJobs, active, nextId := map[], map[], map[], map[], 1;
    }

    method CreateSchedules(list: seq<Schedule>)
      modifies this
      ensures St() == CreatedAll(old(St()), list)
    {
      for i := 0 to |list|
        invariant St() == CreatedAll(old(St()), list[..i])
      {
        assert list[..i + 1][..i] == list[..i];
        schedules := schedules[nextId := list[i]];
        startJobs := startJobs[StartKey(nextId, list[i].kind) := list[i].app];
        nextId := nextId + 1;
      }
      assert list[..|list|] == list;
    }

    /** Deletes the start job, and looks up the active row to find the end job. */
    method DeleteJob(id: int, kind: Kind)
      modifies this`startJobs, this`endJobs
      ensures startJobs == old(startJobs) - {StartKey(id, kind)}
      ensures endJobs == old(endJobs) - if id in active then {EndKey(id, active[id].startJobIdentifier)} else {}
    {
      startJobs := startJobs - {StartKey(id, kind)};
      if id in active {
        endJobs := endJobs - {EndKey(id, active[id].startJobIdentifier)};
      }
    }

    /** One round of a deletion loop. */
    method DeleteOne(id: int, kind: Kind, ghost s: State, ghost done: set<int>)
      requires id in s.schedules && s.schedules[id].kind == kind && St() == WithoutSchedules(s, done)
      modifies this
      ensures St() == WithoutSchedules(s, done + {id})
    {
      schedules := schedules - {id};
      DeleteJob(id, kind);
      KeysOfOneMore(s, done, id);
      assert schedules == s.schedules - (done + {id});
      assert startJobs == s.startJobs - StartKeysOf(s, done + {id});
      assert endJobs == s.endJobs - EndKeysOf(s, done + {id});
    }

    /** One of the two loops of deleteSchedules: the app's schedules of one kind. */
    method DeleteKind(app: string, kind: Kind, ghost s: State, ghost done: set<int>) returns (ghost now: set<int>)
      requires St() == WithoutSchedules(s, done) && done !! OfKind(s, app, kind)
      modifies this
      ensures now == done + OfKind(s, app, kind)
      ensures St() == WithoutSchedules(s, now)
    {
      var left := set id | id in schedules && schedules[id].app == app && schedules[id].kind == kind;
      ghost var todo := OfKind(s, app, kind);
      now := done;
      while left != {}
        invariant left <= todo && now + left == done + todo
        invariant St() == WithoutSchedules(s, now)
        decreases left
      {
        var id := AnyOf(left);
        assert id in todo;
        DeleteOne(id, kind, s, now);
        left, now := left - {id}, now + {id};
      }
    }

    /** In any state; and where jobs and rows match nothing of the app is left. */
    method DeleteSchedules(app: string) returns (notified: set<int>)
      modifies this
      ensures St() == Removed(old(St()), app) && IsRemoval(old(St()), St(), app)
      ensures Consistent(old(St())) ==>
                St() == Deleted(old(St()), {app}) && NothingOf(St(), app) && Consistent(St())
      ensures notified == set id | id in old(active) && old(active)[id].app == app
    {
      ghost var s := St();
      assert WithoutSchedules(s, {}) == s;
      ghost var first := DeleteKind(app, SPECIFIC_DATE, s, {});
      ghost var both := DeleteKind(app, RECURRING, s, first);
      assert forall id :: id in IdsOf(s, app) <==>
               id in OfKind(s, app, SPECIFIC_DATE) || id in OfKind(s, app, RECURRING);
      assert both == IdsOf(s, app);
      notified := set id | id in active && active[id].app == app;
      active := map id | id in active && active[id].app != app :: active[id];
      assert St() == Removed(s, app);
      DeletionOf(s, app);
    }

    /**
     * The start job at work, seeing its stored data. If the app has an active row, or a specific date is over, nothing
     * happens; otherwise a row and its end job are added, and nothing else changes.
     */
    method ExecuteStartJob(k: StartKey, fireTime: int, endTime: int)
      requires k in startJobs
      modifies this
      ensures St() == StartFired(old(St()), k, fireTime, endTime)
      ensures var app := old(startJobs)[k];
              var conflict := exists id :: id in old(active) && old(active)[id].app == app;
              St() == if conflict || (k.kind.SPECIFIC_DATE? && endTime <= fireTime) then old(St())
                      else State(old(schedules), old(startJobs), old(endJobs)[EndKey(k.id, fireTime) := app],
                                 old(active)[k.id := Active(app, fireTime)], old(nextId))
    {
      var appId := startJobs[k];
      if exists id :: id in active && active[id].app == appId {
        return;
      }
      if k.kind.SPECIFIC_DATE? && !(fireTime < endTime) {
        return;
      }
      assert active == map id | id in active && active[id].app != appId :: active[id];
      active := map id | id in active && active[id].app != appId :: active[id];
      active := active[k.id := Active(appId, fireTime)];
      endJobs := endJobs[EndKey(k.id, fireTime) := appId];
    }

    /** The end job at work; its trigger is used up, and its row goes if it carries the job's start identifier. */
    method ExecuteEndJob(k: EndKey)
      requires k in endJobs
      modifies this
      ensures St() == EndFired(old(St()), k)
      ensures var its := k.id in old(active) && old(active)[k.id].startJobIdentifier == k.startJobIdentifier;
              St() == State(old(schedules), old(startJobs), old(endJobs) - {k},
                            if its then old(active) - {k.id} else old(active), old(nextId))
    {
      endJobs := endJobs - {k};
      if k.id in active && active[k.id].startJobIdentifier == k.startJobIdentifier {
        active := active - {k.id};
      }
    }
  }
}
