/** synchronizeSchedules: bringing the stored schedules in line with the stored policies. */
module PolicySync {
  import opened Common
  import opened Schedulers

  /** The schedules of a policy, each carrying the policy's app and guid, or a policy that could not be parsed. */
  datatype PolicyRow = Unparsable | PolicyRow(guid: string, list: seq<Schedule>)

  type Policies = map<string, PolicyRow>

  datatype SynchronizeResult = Failed | Synchronized(created: nat, updated: nat, deleted: nat)

  ghost predicate SetUp(policies: Policies) {
    forall app, i :: app in policies && policies[app].PolicyRow? && 0 <= i < |policies[app].list| ==>
      policies[app].list[i].app == app && policies[app].list[i].guid == policies[app].guid
  }

  predicate Parsed(policies: Policies) {
    forall app :: app in policies ==> policies[app].PolicyRow?
  }

  predicate Stored(s: State, app: string) {
    exists id :: id in s.schedules && s.schedules[id].app == app
  }

  /** All stored schedules of an app carry one guid. */
  ghost predicate OneGuid(s: State) {
    forall id, jd :: id in s.schedules && jd in s.schedules && s.schedules[id].app == s.schedules[jd].app ==>
      s.schedules[id].guid == s.schedules[jd].guid
  }

  /** A guid for each app that has schedules, taken from one of them. */
  ghost predicate IsGuidMap(s: State, guids: map<string, string>) {
    && (forall id :: id in s.schedules ==> s.schedules[id].app in guids)
    && (forall app :: app in guids ==>
          exists id :: id in s.schedules && s.schedules[id].app == app && s.schedules[id].guid == guids[app])
  }

  /** The policy has schedules and they are not stored, or stored under another guid. */
  predicate ToCreate(policies: Policies, guids: map<string, string>, app: string) {
    && app in policies && policies[app].PolicyRow? && policies[app].list != []
    && (app !in guids || guids[app] != policies[app].guid)
  }

  predicate ToDelete(policies: Policies, guids: map<string, string>, app: string) {
    || (app in guids && ToCreate(policies, guids, app))
    || (app in policies && policies[app].PolicyRow? && policies[app].list == [])
    || (app in guids && app !in policies)
  }

  /** Every new id is larger than the ids in use. */
  ghost predicate FreshIds(s: State) {
    forall id :: id in s.schedules ==> id < s.nextId
  }

  /** The app's schedules are the list, the i-th of them stored under the i-th id. */
  ghost predicate StoredAt(s: State, app: string, list: seq<Schedule>, ids: seq<int>) {
    && |ids| == |list|
    && (forall i, j :: 0 <= i < j < |ids| ==> ids[i] != ids[j])
    && (forall i :: 0 <= i < |ids| ==> ids[i] in s.schedules && s.schedules[ids[i]] == list[i])
    && (forall id :: id in s.schedules && s.schedules[id].app == app ==> id in ids)
  }

  ghost predicate StoredAs(s: State, app: string, list: seq<Schedule>) {
    exists ids :: StoredAt(s, app, list, ids)
  }

  ghost predicate SameSchedules(s: State, t: State, app: string) {
    && (forall id :: id in s.schedules && s.schedules[id].app == app ==>
          id in t.schedules && t.schedules[id] == s.schedules[id])
    && (forall id :: id in t.schedules && t.schedules[id].app == app ==>
          id in s.schedules && t.schedules[id] == s.schedules[id])
  }

  ghost predicate SameActive(s: State, t: State, app: string) {
    && (forall id :: id in s.active && s.active[id].app == app ==> id in t.active && t.active[id] == s.active[id])
    && (forall id :: id in t.active && t.active[id].app == app ==> id in s.active && t.active[id] == s.active[id])
  }

  /** Nothing about the app differs between the two states. */
  ghost predicate SameApp(s: State, t: State, app: string) {
    SameSchedules(s, t, app) && SameActive(s, t, app)
  }

  /** What one synchronisation does to the rows of one app. */
  ghost predicate AppSynced(s: State, t: State, policies: Policies, guids: map<string, string>, app: string) {
    && (if ToCreate(policies, guids, app) then StoredAs(t, app, policies[app].list)
        else if ToDelete(policies, guids, app) then !Stored(t, app)
        else SameSchedules(s, t, app))
    && (if ToDelete(policies, guids, app) then !HasActive(t, app) else SameActive(s, t, app))
  }

  /** Where jobs and rows matched before: nothing is left of what was deleted, and what was created starts afresh. */
  ghost predicate JobsSynced(t: State, policies: Policies, guids: map<string, string>, app: string) {
    && (ToCreate(policies, guids, app) ==> !HasActive(t, app))
    && (ToDelete(policies, guids, app) && !ToCreate(policies, guids, app) ==> NothingOf(t, app))
  }

  ghost predicate SyncedTo(s: State, t: State, policies: Policies, guids: map<string, string>) {
    && FreshIds(t)
    && (forall app :: AppSynced(s, t, policies, guids, app))
    && ((forall app :: !ToCreate(policies, guids, app)) ==> t.nextId == s.nextId)
    && (Consistent(s) ==> Consistent(t) && forall app :: JobsSynced(t, policies, guids, app))
  }

  /** Where a stored guid is the policy's, so are the stored schedules. */
  ghost predicate GuidsTell(s: State, policies: Policies) {
    forall app, id :: app in policies && policies[app].PolicyRow? && policies[app].list != []
      && id in s.schedules && s.schedules[id].app == app && s.schedules[id].guid == policies[app].guid
      ==> StoredAs(s, app, policies[app].list)
  }

  /** The store holds exactly the schedules of the policies that have any. */
  ghost predicate Reflects(s: State, policies: Policies) {
    forall app ::
      if app in policies && policies[app].PolicyRow? && policies[app].list != []
      then StoredAs(s, app, policies[app].list)
      else !Stored(s, app)
  }

  ghost predicate AllOf(list: seq<Schedule>, app: string, guid: string) {
    forall i :: 0 <= i < |list| ==> list[i].app == app && list[i].guid == guid
  }

  lemma SameSchedulesKeepStored(s: State, t: State, app: string, guid: string, list: seq<Schedule>)
    requires SameSchedules(s, t, app) && StoredAs(s, app, list) && AllOf(list, app, guid)
    ensures StoredAs(t, app, list)
  {
    var ids :| StoredAt(s, app, list, ids);
    assert StoredAt(t, app, list, ids);
  }

  /** An app that is neither created nor deleted is up to date, or unknown to both sides. */
  lemma KeptAppIsRight(s: State, policies: Policies, guids: map<string, string>, app: string)
    requires Parsed(policies) && IsGuidMap(s, guids) && GuidsTell(s, policies)
    requires !ToCreate(policies, guids, app) && !ToDelete(policies, guids, app)
    ensures if app in policies && policies[app].list != [] then StoredAs(s, app, policies[app].list)
            else !Stored(s, app)
  {
    if app in guids {
      var id :| id in s.schedules && s.schedules[id].app == app && s.schedules[id].guid == guids[app];
    }
  }

  lemma SyncReflectsApp(s: State, t: State, policies: Policies, guids: map<string, string>, app: string)
    requires SetUp(policies) && Parsed(policies) && IsGuidMap(s, guids) && GuidsTell(s, policies)
    requires AppSynced(s, t, policies, guids, app)
    ensures if app in policies && policies[app].list != [] then StoredAs(t, app, policies[app].list)
            else !Stored(t, app)
  {
    if !ToCreate(policies, guids, app) && !ToDelete(policies, guids, app) {
      KeptAppIsRight(s, policies, guids, app);
      if app in policies {
        SameSchedulesKeepStored(s, t, app, policies[app].guid, policies[app].list);
      }
    }
  }

  /** After a synchronisation, from whatever state with fresh ids, the schedule tables reflect the policies. */
  lemma SyncConverges(s: State, t: State, policies: Policies, guids: map<string, string>)
    requires SetUp(policies) && Parsed(policies) && IsGuidMap(s, guids) && GuidsTell(s, policies)
    requires SyncedTo(s, t, policies, guids)
    ensures Reflects(t, policies)
  {
    forall app
      ensures if app in policies && policies[app].PolicyRow? && policies[app].list != []
              then StoredAs(t, app, policies[app].list) else !Stored(t, app)
    {
      assert AppSynced(s, t, policies, guids, app);
      SyncReflectsApp(s, t, policies, guids, app);
    }
  }

  lemma StoredGuid(s: State, app: string, guid: string, list: seq<Schedule>, id: int)
    requires StoredAs(s, app, list) && AllOf(list, app, guid) && id in s.schedules && s.schedules[id].app == app
    ensures s.schedules[id].guid == guid
  {
    var ids :| StoredAt(s, app, list, ids);
    var i :| 0 <= i < |ids| && ids[i] == id;
    assert s.schedules[id] == list[i];
  }

  lemma StoredHasSchedule(s: State, app: string, guid: string, list: seq<Schedule>)
    requires StoredAs(s, app, list) && AllOf(list, app, guid) && list != []
    ensures Stored(s, app)
  {
    var ids :| StoredAt(s, app, list, ids);
    assert list[0].app == app;
    var first := ids[0];
    assert first in s.schedules && s.schedules[first].app == app;
  }

  /** What a synchronisation needs it leaves behind: one guid per app, and guids that tell. */
  lemma ReflectingGuids(t: State, policies: Policies)
    requires SetUp(policies) && Parsed(policies) && Reflects(t, policies)
    ensures OneGuid(t) && GuidsTell(t, policies)
  {
    forall id | id in t.schedules
      ensures var app := t.schedules[id].app;
              && app in policies && policies[app].list != []
              && t.schedules[id].guid == policies[app].guid
    {
      var app := t.schedules[id].app;
      assert Stored(t, app);
      StoredGuid(t, app, policies[app].guid, policies[app].list, id);
    }
  }

  lemma NextSyncKeepsApp(t: State, policies: Policies, guids: map<string, string>, app: string)
    requires SetUp(policies) && Parsed(policies) && Reflects(t, policies) && IsGuidMap(t, guids)
    ensures !ToCreate(policies, guids, app)
    ensures ToDelete(policies, guids, app) ==> !Stored(t, app)
  {
    if app in policies && policies[app].list != [] {
      StoredHasSchedule(t, app, policies[app].guid, policies[app].list);
      var id :| id in t.schedules && t.schedules[id].app == app && t.schedules[id].guid == guids[app];
      StoredGuid(t, app, policies[app].guid, policies[app].list, id);
    }
  }

  lemma SameSchedulesEverywhere(t: State, u: State)
    requires forall app :: SameSchedules(t, u, app)
    ensures t.schedules == u.schedules
  {
    forall id | id in t.schedules ensures id in u.schedules && u.schedules[id] == t.schedules[id] {
      assert SameSchedules(t, u, t.schedules[id].app);
    }
    forall id | id in u.schedules ensures id in t.schedules {
      assert SameSchedules(t, u, u.schedules[id].app);
    }
  }

  lemma SameActiveEverywhere(t: State, u: State)
    requires forall app :: SameActive(t, u, app)
    ensures t.active == u.active
  {
    forall id | id in t.active ensures id in u.active && u.active[id] == t.active[id] {
      assert SameActive(t, u, t.active[id].app);
    }
    forall id | id in u.active ensures id in t.active {
      assert SameActive(t, u, u.active[id].app);
    }
  }

  /** The rows determine the jobs. */
  lemma SameRowsSameJobs(t: State, u: State)
    requires Consistent(t) && Consistent(u) && t.schedules == u.schedules && t.active == u.active
    ensures t.startJobs == u.startJobs && t.endJobs == u.endJobs
  {
  }

  lemma NextSyncKeepsSchedules(t: State, u: State, policies: Policies, guids: map<string, string>, app: string)
    requires SetUp(policies) && Parsed(policies) && Reflects(t, policies) && IsGuidMap(t, guids)
    requires AppSynced(t, u, policies, guids, app)
    ensures SameSchedules(t, u, app) && !ToCreate(policies, guids, app)
    ensures Consistent(t) ==> SameActive(t, u, app)
  {
    NextSyncKeepsApp(t, policies, guids, app);
    if ToDelete(policies, guids, app) {
      assert forall id :: id in t.schedules ==> t.schedules[id].app != app;
      assert forall id :: id in u.schedules ==> u.schedules[id].app != app;
      if Consistent(t) {
        NothingWithoutSchedules(t, app);
        assert forall id :: id in t.active ==> t.active[id].app != app;
        assert forall id :: id in u.active ==> u.active[id].app != app;
      }
    }
  }

  /**
   * A second synchronisation, with the policies unchanged, leaves the schedule tables as they are, in any state; where
   * jobs and rows match it leaves every table and every job.
   */
  lemma SecondSyncChangesNothing(t: State, u: State, policies: Policies, guids: map<string, string>)
    requires SetUp(policies) && Parsed(policies) && Reflects(t, policies) && IsGuidMap(t, guids)
    requires SyncedTo(t, u, policies, guids)
    ensures u.schedules == t.schedules && u.nextId == t.nextId
    ensures Consistent(t) ==> u == t
  {
    forall app
      ensures SameSchedules(t, u, app) && !ToCreate(policies, guids, app)
      ensures Consistent(t) ==> SameActive(t, u, app)
    {
      assert AppSynced(t, u, policies, guids, app);
      NextSyncKeepsSchedules(t, u, policies, guids, app);
    }
    SameSchedulesEverywhere(t, u);
    if Consistent(t) {
      SameActiveEverywhere(t, u);
      SameRowsSameJobs(t, u);
    }
  }

  // ----- The synchronisation as it is written -----

  /** A deletion, in any state, clears the rows of its app and no others. */
  lemma RemovedApp(s: State, app: string)
    ensures var t := Removed(s, app);
            && !Stored(t, app) && !HasActive(t, app) && t.nextId == s.nextId
            && (FreshIds(s) ==> FreshIds(t))
            && forall other :: other != app ==> SameApp(s, t, other)
  {
    var t := Removed(s, app);
    assert t.schedules == s.schedules - IdsOf(s, app) && t.active == WithoutActive(s.active, app);
  }

  lemma DeletedTogether(s: State, apps: set<string>, app: string)
    ensures Deleted(Deleted(s, apps), {app}) == Deleted(s, apps + {app})
  {
  }

  /** The app's schedules are the list, under consecutive ids from base on: how creation stores them. */
  ghost predicate StoredFrom(s: State, app: string, list: seq<Schedule>, base: int) {
    && (forall id :: id in s.schedules && s.schedules[id].app == app ==> base <= id < base + |list|)
    && (forall id :: base <= id < base + |list| ==> id in s.schedules && s.schedules[id] == list[id - base])
  }

  lemma ConsecutiveIsStored(s: State, app: string, list: seq<Schedule>, base: int)
    requires StoredFrom(s, app, list, base)
    ensures StoredAs(s, app, list)
  {
    var ids := seq(|list|, i => base + i);
    forall id | id in s.schedules && s.schedules[id].app == app ensures id in ids {
      assert ids[id - base] == id;
    }
    assert StoredAt(s, app, list, ids);
  }

  lemma {:induction false} CreatedApp(s: State, app: string, guid: string, list: seq<Schedule>)
    requires FreshIds(s) && AllOf(list, app, guid) && !Stored(s, app)
    ensures var t := CreatedAll(s, list);
            && StoredFrom(t, app, list, s.nextId) && FreshIds(t)
            && t.active == s.active && t.nextId == s.nextId + |list|
            && forall other :: other != app ==> SameApp(s, t, other)
  {
    if list != [] {
      var n := |list| - 1;
      CreatedApp(s, app, guid, list[..n]);
      CreatedOne(s, CreatedAll(s, list[..n]), app, list);
    }
  }

  lemma CreatedOne(s: State, t: State, app: string, list: seq<Schedule>)
    requires list != [] && list[|list| - 1].app == app && FreshIds(t)
    requires StoredFrom(t, app, list[..|list| - 1], s.nextId) && t.nextId == s.nextId + |list| - 1
    requires forall other :: other != app ==> SameApp(s, t, other)
    ensures var u := Created(t, list[|list| - 1]);
            && StoredFrom(u, app, list, s.nextId) && FreshIds(u)
            && forall other :: other != app ==> SameApp(s, u, other)
  {
    var u := Created(t, list[|list| - 1]);
    assert t.nextId !in t.schedules;
    forall other | other != app ensures SameApp(s, u, other) {
      assert SameApp(s, t, other);
    }
  }

  /**
   * Replacing an app's schedules by a list under one guid, as a request to the scheduler does, keeps one guid per
   * app.
   */
  lemma {:induction false} ReplacingKeepsOneGuid(s: State, app: string, guid: string, list: seq<Schedule>)
    requires FreshIds(s) && OneGuid(s) && AllOf(list, app, guid)
    ensures OneGuid(Removed(s, app))
    ensures OneGuid(CreatedAll(Removed(s, app), list))
  {
    var d := Removed(s, app);
    var t := CreatedAll(d, list);
    RemovedApp(s, app);
    assert forall id :: id in d.schedules ==> id in s.schedules && d.schedules[id] == s.schedules[id];
    CreatedApp(d, app, guid, list);
    forall id, jd | id in t.schedules && jd in t.schedules && t.schedules[id].app == t.schedules[jd].app
      ensures t.schedules[id].guid == t.schedules[jd].guid
    {
      var other := t.schedules[id].app;
      if other == app {
        assert t.schedules[id] == list[id - d.nextId] && t.schedules[jd] == list[jd - d.nextId];
      } else {
        assert SameApp(d, t, other);
      }
    }
  }

  method AppGuids(s: State) returns (guids: map<string, string>)
    ensures IsGuidMap(s, guids)
  {
    guids := map[];
    guids := AddGuids(s, RECURRING, guids, {});
    guids := AddGuids(s, SPECIFIC_DATE, guids, {RECURRING});
    forall id | id in s.schedules ensures s.schedules[id].kind in {RECURRING} + {SPECIFIC_DATE} {
      match s.schedules[id].kind case RECURRING => case SPECIFIC_DATE =>
    }
  }

  /** One table's pairs of app and guid put into the map; a later pair replaces an earlier one. */
  method AddGuids(s: State, kind: Kind, before: map<string, string>, ghost done: set<Kind>)
    returns (guids: map<string, string>)
    requires forall id :: id in s.schedules && s.schedules[id].kind in done ==> s.schedules[id].app in before
    requires forall app :: app in before ==>
      exists id :: id in s.schedules && s.schedules[id].app == app && s.schedules[id].guid == before[app]
    ensures forall id :: id in s.schedules && s.schedules[id].kind in done + {kind} ==> s.schedules[id].app in guids
    ensures forall app :: app in guids ==>
              exists id :: id in s.schedules && s.schedules[id].app == app && s.schedules[id].guid == guids[app]
  {
    guids := before;
    var left := set id | id in s.schedules && s.schedules[id].kind == kind;
    while left != {}
      invariant left <= s.schedules.Keys
      invariant forall id :: id in s.schedules && s.schedules[id].kind in done + {kind} && id !in left ==>
        s.schedules[id].app in guids
      invariant forall app :: app in guids ==>
        exists id :: id in s.schedules && s.schedules[id].app == app && s.schedules[id].guid == guids[app]
      decreases left
    {
      var id := AnyOf(left);
      guids := guids[s.schedules[id].app := s.schedules[id].guid];
      left := left - {id};
    }
  }

  /** What the loop over the policies finds about one of them. */
  datatype Finding = New | Changed | Empty | Current

  function FindingOf(policies: Policies, guids: map<string, string>, app: string): Finding
    requires app in policies && policies[app].PolicyRow?
  {
    if policies[app].list == [] then Empty
    else if app !in guids then New
    else if policies[app].guid != guids[app] then Changed
    else Current
  }

  function AppsWith(policies: Policies, guids: map<string, string>, finding: Finding): set<string> {
    set app | app in policies && policies[app].PolicyRow? && FindingOf(policies, guids, app) == finding
  }

  /** How many apps are new, how many have changed or lost their schedules, and how many are gone. */
  function CountsOf(policies: Policies, guids: map<string, string>): SynchronizeResult {
    Synchronized(|AppsWith(policies, guids, New)|,
                 |AppsWith(policies, guids, Changed)| + |AppsWith(policies, guids, Empty)|,
                 |guids.Keys - policies.Keys|)
  }

  lemma GuidsOfStored(s: State, guids: map<string, string>, app: string)
    requires IsGuidMap(s, guids)
    ensures app in guids <==> exists id :: id in s.schedules && s.schedules[id].app == app
  {
  }

  lemma FindingsMean(policies: Policies, guids: map<string, string>, app: string)
    ensures app in AppsWith(policies, guids, New) <==>
            app in policies && policies[app].PolicyRow? && policies[app].list != [] && app !in guids
    ensures app in AppsWith(policies, guids, Changed) + AppsWith(policies, guids, Empty) <==>
            && app in policies && policies[app].PolicyRow?
            && (policies[app].list == [] || (app in guids && guids[app] != policies[app].guid))
  {
  }

  lemma CreatedAre(s: State, policies: Policies, guids: map<string, string>, created: set<string>)
    requires IsGuidMap(s, guids)
    requires forall app :: app in created <==>
               app in policies && policies[app].PolicyRow? && policies[app].list != [] && !Stored(s, app)
    ensures AppsWith(policies, guids, New) == created
  {
    forall app ensures app in AppsWith(policies, guids, New) <==> app in created {
      GuidsOfStored(s, guids, app);
      FindingsMean(policies, guids, app);
    }
  }

  lemma UpdatedAre(policies: Policies, guids: map<string, string>, updated: set<string>)
    requires forall app :: app in updated <==>
               && app in policies && policies[app].PolicyRow?
               && (policies[app].list == [] || (app in guids && guids[app] != policies[app].guid))
    ensures AppsWith(policies, guids, Changed) + AppsWith(policies, guids, Empty) == updated
  {
    forall app
      ensures app in AppsWith(policies, guids, Changed) + AppsWith(policies, guids, Empty) <==> app in updated
    {
      FindingsMean(policies, guids, app);
    }
  }

  lemma DeletedAre(s: State, policies: Policies, guids: map<string, string>, deleted: set<string>)
    requires IsGuidMap(s, guids) && forall app :: app in deleted <==> app !in policies && Stored(s, app)
    ensures guids.Keys - policies.Keys == deleted
  {
    forall app ensures app in guids.Keys - policies.Keys <==> app in deleted {
      GuidsOfStored(s, guids, app);
    }
  }

  /**
   * The counts by what was stored and what the policies say: the apps with schedules of which none was stored, those
   * without any or with others under another guid, and those with something stored but no policy.
   */
  lemma {:induction false} CountsMean(
    s: State, policies: Policies, guids: map<string, string>, created: set<string>, updated: set<string>,
    deleted: set<string>)
    requires IsGuidMap(s, guids)
    requires forall app :: app in created <==>
               app in policies && policies[app].PolicyRow? && policies[app].list != [] && !Stored(s, app)
    requires forall app :: app in updated <==>
               && app in policies && policies[app].PolicyRow?
               && (policies[app].list == [] || (app in guids && guids[app] != policies[app].guid))
    requires forall app :: app in deleted <==> app !in policies && Stored(s, app)
    ensures CountsOf(policies, guids) == Synchronized(|created|, |updated|, |deleted|)
  {
    CreatedAre(s, policies, guids, created);
    UpdatedAre(policies, guids, updated);
    DeletedAre(s, policies, guids, deleted);
    assert AppsWith(policies, guids, Changed) * AppsWith(policies, guids, Empty) == {};
  }

  /**
   * What a synchronisation does to an app: schedules are created unless the stored guid is the policy's, and then
   * nothing changes; without a policy, or with one without schedules, what is stored goes.
   */
  lemma {:induction false} AppSyncedMeans(
    s: State, t: State, policies: Policies, guids: map<string, string>, app: string)
    requires IsGuidMap(s, guids) && Parsed(policies) && AppSynced(s, t, policies, guids, app)
    ensures var list := if app in policies then policies[app].list else [];
            var current := list != [] && app in guids && guids[app] == policies[app].guid;
            && (list != [] && !current ==> StoredAs(t, app, list))
            && (list == [] ==> forall id :: id in t.schedules ==> t.schedules[id].app != app)
            && (current ==> SameApp(s, t, app))
            && (!current && (app in guids || (app in policies && list == [])) ==>
                  forall id :: id in t.active ==> t.active[id].app != app)
  {
    assert !Stored(t, app) ==> forall id :: id in t.schedules ==> t.schedules[id].app != app;
    assert !HasActive(t, app) ==> forall id :: id in t.active ==> t.active[id].app != app;
  }

  lemma FindingsDecide(policies: Policies, guids: map<string, string>, app: string)
    ensures ToCreate(policies, guids, app)
            <==> app in AppsWith(policies, guids, New) + AppsWith(policies, guids, Changed)
    ensures ToDelete(policies, guids, app) <==>
            app in AppsWith(policies, guids, Changed) + AppsWith(policies, guids, Empty) + (guids.Keys - policies.Keys)
  {
  }

  lemma AllFindingsDecide(
    policies: Policies, guids: map<string, string>, news: set<string>, changed: set<string>, empties: set<string>)
    requires news == AppsWith(policies, guids, New) && changed == AppsWith(policies, guids, Changed)
    requires empties == AppsWith(policies, guids, Empty)
    ensures forall app :: app in changed + empties + (guids.Keys - policies.Keys) <==> ToDelete(policies, guids, app)
    ensures forall app :: app in news + changed <==> ToCreate(policies, guids, app)
  {
    forall app
      ensures app in changed + empties + (guids.Keys - policies.Keys) <==> ToDelete(policies, guids, app)
      ensures app in news + changed <==> ToCreate(policies, guids, app)
    {
      FindingsDecide(policies, guids, app);
    }
  }

  /** The decisions of the loop over the policies; an unparsable one ends it with a failure. */
  method Compare(policies: Policies, guids: map<string, string>)
    returns (ok: bool, news: set<string>, changed: set<string>, empties: set<string>)
    ensures ok <==> Parsed(policies)
    ensures ok ==> news == AppsWith(policies, guids, New) && changed == AppsWith(policies, guids, Changed)
    ensures ok ==> empties == AppsWith(policies, guids, Empty)
  {
    ok, news, changed, empties := true, {}, {}, {};
    var left := policies.Keys;
    while left != {}
      invariant left <= policies.Keys
      invariant forall app :: app in policies && app !in left ==> policies[app].PolicyRow?
      invariant forall app :: app in news <==> app in AppsWith(policies, guids, New) && app !in left
      invariant forall app :: app in changed <==> app in AppsWith(policies, guids, Changed) && app !in left
      invariant forall app :: app in empties <==> app in AppsWith(policies, guids, Empty) && app !in left
      decreases left
    {
      var app := AnyOf(left);
      left := left - {app};
      if policies[app].Unparsable? {
        ok := false;
        return;
      }
      if policies[app].list != [] {
        if app !in guids {
          news := news + {app};
        } else if policies[app].guid != guids[app] {
          changed := changed + {app};
        }
      } else {
        empties := empties + {app};
      }
    }
  }

  lemma OneMoreDone<T>(all: set<T>, left: set<T>, x: T)
    requires x in left && left <= all
    ensures (all - left) + {x} == all - (left - {x})
  {
  }

  /** The rows of some apps cleared, nothing else touched; where jobs and rows matched, the jobs are gone, too. */
  ghost predicate PartlyDeleted(s: State, d: State, done: set<string>) {
    && d.nextId == s.nextId
    && (FreshIds(s) ==> FreshIds(d))
    && (forall app :: app in done ==> !Stored(d, app) && !HasActive(d, app))
    && (forall app :: app !in done ==> SameApp(s, d, app))
    && (Consistent(s) ==> d == Deleted(s, done) && Consistent(d))
  }

  lemma NothingDeletedYet(s: State)
    ensures PartlyDeleted(s, s, {})
  {
    assert Deleted(s, {}) == s;
  }

  lemma DeletedOneMore(s: State, d: State, done: set<string>, app: string)
    requires PartlyDeleted(s, d, done)
    ensures PartlyDeleted(s, Removed(d, app), done + {app})
  {
    var e := Removed(d, app);
    RemovedApp(d, app);
    forall other | other !in done + {app} ensures SameApp(s, e, other) {
      assert SameApp(s, d, other) && SameApp(d, e, other);
      SameAppTransitive(s, d, e, other);
    }
    forall other | other in done ensures !Stored(e, other) && !HasActive(e, other) {
      if other != app {
        StillNothing(d, e, other);
      }
    }
    if Consistent(s) {
      RemovedIsDeleted(d, app);
      DeletedConsistent(d, {app});
      DeletedTogether(s, done, app);
    }
  }

  lemma StillNothing(d: State, e: State, app: string)
    requires SameApp(d, e, app) && !Stored(d, app) && !HasActive(d, app)
    ensures !Stored(e, app) && !HasActive(e, app)
  {
    assert forall id :: id in d.schedules ==> d.schedules[id].app != app;
    assert forall id :: id in d.active ==> d.active[id].app != app;
  }

  /** The deletion loop. */
  method DeleteApps(scheduler: Scheduler, apps: set<string>)
    modifies scheduler
    ensures PartlyDeleted(old(scheduler.St()), scheduler.St(), apps)
  {
    ghost var s := scheduler.St();
    ghost var done: set<string> := {};
    var left := apps;
    NothingDeletedYet(s);
    while left != {}
      invariant left <= apps && done == apps - left
      invariant PartlyDeleted(s, scheduler.St(), done)
      decreases left
    {
      var app := AnyOf(left);
      DeleteApp(scheduler, app, s, done);
      OneMoreDone(apps, left, app);
      left, done := left - {app}, done + {app};
    }
    assert done == apps;
  }

  method DeleteApp(scheduler: Scheduler, app: string, ghost s: State, ghost done: set<string>)
    requires PartlyDeleted(s, scheduler.St(), done)
    modifies scheduler
    ensures PartlyDeleted(s, scheduler.St(), done + {app})
  {
    DeletedOneMore(s, scheduler.St(), done, app);
    var _ := scheduler.DeleteSchedules(app);
  }

  /** The schedules of some apps created, nothing else touched. */
  ghost predicate PartlyCreated(s: State, t: State, policies: Policies, done: set<string>) {
    && FreshIds(t) && t.active == s.active
    && (Consistent(s) ==> Consistent(t))
    && (forall app :: app in done ==>
          app in policies && policies[app].PolicyRow? && StoredAs(t, app, policies[app].list))
    && (forall app :: app !in done ==> SameApp(s, t, app))
    && (done == {} ==> t.nextId == s.nextId)
  }

  lemma CreatedOneMore(s: State, t: State, policies: Policies, done: set<string>, app: string)
    requires SetUp(policies) && PartlyCreated(s, t, policies, done)
    requires app !in done && app in policies && policies[app].PolicyRow? && !Stored(s, app)
    ensures PartlyCreated(s, CreatedAll(t, policies[app].list), policies, done + {app})
  {
    var u := CreatedAll(t, policies[app].list);
    if Consistent(t) {
      CreatedAllConsistent(t, policies[app].list);
    }
    assert SameApp(s, t, app);
    CreatedApp(t, app, policies[app].guid, policies[app].list);
    ConsecutiveIsStored(u, app, policies[app].list, t.nextId);
    forall other | other !in done + {app} ensures SameApp(s, u, other) {
      assert SameApp(s, t, other) && SameApp(t, u, other);
      SameAppTransitive(s, t, u, other);
    }
    forall other | other in done ensures StoredAs(u, other, policies[other].list) {
      assert SameApp(t, u, other);
      SameSchedulesKeepStored(t, u, other, policies[other].guid, policies[other].list);
    }
  }

  method CreateApp(scheduler: Scheduler, policies: Policies, app: string, ghost s: State, ghost done: set<string>)
    requires SetUp(policies) && PartlyCreated(s, scheduler.St(), policies, done)
    requires app !in done && app in policies && policies[app].PolicyRow? && !Stored(s, app)
    modifies scheduler
    ensures PartlyCreated(s, scheduler.St(), policies, done + {app})
  {
    CreatedOneMore(s, scheduler.St(), policies, done, app);
    scheduler.CreateSchedules(policies[app].list);
  }

  lemma NothingCreatedYet(s: State, policies: Policies)
    requires FreshIds(s)
    ensures PartlyCreated(s, s, policies, {})
  {
  }

  /** The creation loop, over apps that have nothing stored. */
  method CreateApps(scheduler: Scheduler, policies: Policies, apps: set<string>)
    requires FreshIds(scheduler.St()) && SetUp(policies)
    requires forall app :: app in apps ==> app in policies && policies[app].PolicyRow? && !Stored(scheduler.St(), app)
    modifies scheduler
    ensures PartlyCreated(old(scheduler.St()), scheduler.St(), policies, apps)
  {
    ghost var s := scheduler.St();
    ghost var done: set<string> := {};
    var left := apps;
    NothingCreatedYet(s, policies);
    while left != {}
      invariant left <= apps && done == apps - left
      invariant PartlyCreated(s, scheduler.St(), policies, done)
      decreases left
    {
      var app := AnyOf(left);
      CreateApp(scheduler, policies, app, s, done);
      OneMoreDone(apps, left, app);
      left, done := left - {app}, done + {app};
    }
    assert done == apps;
  }

  lemma NothingWithoutSchedules(s: State, app: string)
    requires Consistent(s) && !Stored(s, app)
    ensures NothingOf(s, app) && !HasActive(s, app)
  {
  }

  lemma SameAppTransitive(s: State, d: State, t: State, app: string)
    requires SameApp(s, d, app) && SameApp(d, t, app)
    ensures SameApp(s, t, app)
  {
  }

  /** Deleting, then creating, does to the rows of each app what the comparison decided. */
  lemma DeleteThenCreate(s: State, d: State, t: State, policies: Policies, guids: map<string, string>, app: string)
    requires if ToDelete(policies, guids, app) then !Stored(d, app) && !HasActive(d, app) else SameApp(s, d, app)
    requires t.active == d.active
    requires if ToCreate(policies, guids, app) then StoredAs(t, app, policies[app].list) else SameApp(d, t, app)
    ensures AppSynced(s, t, policies, guids, app)
  {
    if ToDelete(policies, guids, app) {
      if !ToCreate(policies, guids, app) {
        StillNothing(d, t, app);
      }
    } else if !ToCreate(policies, guids, app) {
      SameAppTransitive(s, d, t, app);
    }
  }

  /** Where jobs and rows match, what was deleted is gone entirely, and what was created has no active row. */
  lemma JobsFollow(s: State, d: State, t: State, policies: Policies, guids: map<string, string>, app: string)
    requires Consistent(d) && Consistent(t) && t.active == d.active && AppSynced(s, t, policies, guids, app)
    requires ToCreate(policies, guids, app) ==> !Stored(d, app)
    ensures JobsSynced(t, policies, guids, app)
  {
    if ToCreate(policies, guids, app) {
      NothingWithoutSchedules(d, app);
    } else if ToDelete(policies, guids, app) {
      NothingWithoutSchedules(t, app);
    }
  }

  lemma ReadyToCreate(
    s: State, d: State, policies: Policies, guids: map<string, string>, deleted: set<string>, app: string)
    requires IsGuidMap(s, guids) && ToCreate(policies, guids, app) && PartlyDeleted(s, d, deleted)
    requires ToDelete(policies, guids, app) ==> app in deleted
    ensures !Stored(d, app)
  {
    if app !in deleted {
      assert SameApp(s, d, app);
      assert app !in guids;
    }
  }

  lemma SyncedAsDecided(
    s: State, d: State, t: State, policies: Policies, guids: map<string, string>, deleted: set<string>,
    created: set<string>)
    requires IsGuidMap(s, guids) && PartlyDeleted(s, d, deleted) && PartlyCreated(d, t, policies, created)
    requires forall app :: app in deleted <==> ToDelete(policies, guids, app)
    requires forall app :: app in created <==> ToCreate(policies, guids, app)
    ensures SyncedTo(s, t, policies, guids)
  {
    forall app ensures AppSynced(s, t, policies, guids, app) {
      DeleteThenCreate(s, d, t, policies, guids, app);
    }
    if Consistent(s) {
      forall app ensures JobsSynced(t, policies, guids, app) {
        if ToCreate(policies, guids, app) {
          ReadyToCreate(s, d, policies, guids, deleted, app);
        }
        assert AppSynced(s, t, policies, guids, app);
        JobsFollow(s, d, t, policies, guids, app);
      }
    }
    if forall app :: !ToCreate(policies, guids, app) {
      assert created == {};
    }
  }

  /** Everything up to the deletions: the guids found, the decisions and the counts. */
  method Decide(s: State, policies: Policies)
    returns (ok: bool, guids: map<string, string>, toDelete: set<string>, toCreate: set<string>,
             counts: SynchronizeResult)
    ensures IsGuidMap(s, guids)
    ensures ok <==> Parsed(policies)
    ensures ok ==> forall app :: app in toDelete <==> ToDelete(policies, guids, app)
    ensures ok ==> forall app :: app in toCreate <==> ToCreate(policies, guids, app)
    ensures ok ==> counts == CountsOf(policies, guids)
  {
    guids := AppGuids(s);
    var news, changed, empties;
    ok, news, changed, empties := Compare(policies, guids);
    if !ok {
      return false, guids, {}, {}, Failed;
    }
    var gone := guids.Keys - policies.Keys;
    AllFindingsDecide(policies, guids, news, changed, empties);
    toDelete, toCreate := changed + empties + gone, news + changed;
    counts := Synchronized(|news|, |changed| + |empties|, |gone|);
  }

  /** The last two loops: all deletions, then all creations. */
  method DeleteAndCreate(
    scheduler: Scheduler, policies: Policies, ghost guids: map<string, string>, toDelete: set<string>,
    toCreate: set<string>)
    requires FreshIds(scheduler.St()) && SetUp(policies) && IsGuidMap(scheduler.St(), guids)
    requires forall app :: app in toDelete <==> ToDelete(policies, guids, app)
    requires forall app :: app in toCreate <==> ToCreate(policies, guids, app)
    modifies scheduler
    ensures SyncedTo(old(scheduler.St()), scheduler.St(), policies, guids)
  {
    ghost var s := scheduler.St();
    DeleteApps(scheduler, toDelete);
    ghost var d := scheduler.St();
    forall app | app in toCreate ensures !Stored(d, app) {
      ReadyToCreate(s, d, policies, guids, toDelete, app);
    }
    CreateApps(scheduler, policies, toCreate);
    SyncedAsDecided(s, d, scheduler.St(), policies, guids, toDelete, toCreate);
  }

  /**
   * synchronizeSchedules, in any state with fresh ids. With a policy that cannot be parsed it fails before it has
   * changed anything; otherwise it leaves each app as decided and counts the apps it created, updated and deleted.
   */
  method SynchronizeSchedules(scheduler: Scheduler, policies: Policies)
    returns (result: SynchronizeResult, ghost guids: map<string, string>)
    requires FreshIds(scheduler.St()) && SetUp(policies)
    modifies scheduler
    ensures IsGuidMap(old(scheduler.St()), guids)
    ensures result == Failed <==> exists app :: app in policies && policies[app] == Unparsable
    ensures !Parsed(policies) ==> result == Failed && scheduler.St() == old(scheduler.St())
    ensures Parsed(policies) ==>
      && SyncedTo(old(scheduler.St()), scheduler.St(), policies, guids)
      && result == CountsOf(policies, guids)
  {
    var ok, found, toDelete, toCreate, counts := Decide(scheduler.St(), policies);
    guids := found;
    if !ok {
      return Failed, guids;
    }
    DeleteAndCreate(scheduler, policies, guids, toDelete, toCreate);
    return counts, guids;
  }
}
