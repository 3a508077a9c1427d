/** Any number of processes contending for one lease: who is ready, and under which conditions at most one is. */
module LeaseSafety {
  import opened Common
  import opened LockTables
  import opened DatabaseLocks

  /** lastRenewal is the database time of a process's last Lock transaction that reached the table. */
  datatype State = State(table: Table, clock: int, runners: map<string, Runner>, lastRenewal: map<string, int>)

  /**
   * One step of the system; each transaction is atomic and carries its own database time, never later than the clock.
   * Crash ends a process wherever it stands, without a release; Restart starts it again.
   */
  datatype Action =
    | Advance(d: nat)
    | StartLock(p: string)
    | TryLock(p: string, pick: string, now: int, fault: Fault)
    | Stop(p: string)
    | TryRelease(p: string, fault: Fault)
    | Crash(p: string)
    | Restart(p: string)

  function TryOf(s: State, a: Action): Try
    requires a.TryLock?
  {
    Try(s.table, a.pick, a.now, a.fault)
  }

  ghost predicate Enabled(s: State, a: Action) {
    match a
    case Advance(_) => true
    case StartLock(p) => p in s.runners && (s.runners[p].phase.NotStarted? || s.runners[p].phase.Waiting?)
    case TryLock(p, pick, now, fault) =>
      p in s.runners && s.runners[p].phase.Locking? && now <= s.clock && ValidTry(TryOf(s, a))
    case Stop(p) => p in s.runners && s.runners[p].phase.Waiting?
    case TryRelease(p, fault) => p in s.runners && s.runners[p].phase.Releasing?
    case Crash(p) => p in s.runners
    case Restart(p) => p in s.runners && s.runners[p].phase.Exited?
  }

  /** The runner once its call has made one more attempt with this outcome. */
  function AfterAttempt(r: Runner, o: Outcome): Runner
    requires r.phase.Locking?
  {
    var unrefused := r.phase.unrefused && !o.refused;
    if Retries(r.phase.attempt, o.error) then
      r.(phase := Locking(r.phase.first, r.phase.attempt + 1, unrefused))
    else if r.phase.first then AfterFirst(r, unrefused, o.error)
    else AfterTick(r, unrefused, o.error)
  }

  /** Whether the attempt changed the table in the caller's favour. */
  predicate Renews(t: Try, o: Outcome) {
    !o.refused && (o.error.None? || (t.fault.AtCommit? && t.fault.applied))
  }

  /** Every process has its own ttl. */
  ghost function Next(ttl: string -> int, s: State, a: Action): State
    requires Enabled(s, a)
  {
    match a
    case Advance(d) => s.(clock := s.clock + d)
    case StartLock(p) =>
      var r := s.runners[p];
      s.(runners := s.runners[p := r.(phase := Locking(r.phase.NotStarted?, 0, true))])
    case TryLock(p, pick, now, fault) =>
      var o := LockAttempt(Lock(p, ttl(p)), TryOf(s, a));
      s.(table := o.table,
         runners := s.runners[p := AfterAttempt(s.runners[p], o)],
         lastRenewal := if Renews(TryOf(s, a), o) then s.lastRenewal[p := now] else s.lastRenewal)
    case Stop(p) => s.(runners := s.runners[p := s.runners[p].(phase := Releasing(0))])
    case TryRelease(p, fault) =>
      var o := ReleaseAttempt(s.table, p, fault);
      var r := s.runners[p];
      var after := if Retries(r.phase.attempt, o.error) then Releasing(r.phase.attempt + 1) else Exited;
      s.(table := o.table, runners := s.runners[p := r.(phase := after)])
    case Crash(p) => s.(runners := s.runners[p := s.runners[p].(phase := Exited)])
    case Restart(p) => s.(runners := s.runners[p := INITIAL])
  }

  /** Ready: the runner has closed its channel and neither begun to release nor exited. */
  predicate Ready(s: State, p: string) {
    p in s.runners && 0 < s.runners[p].closed && (s.runners[p].phase.Waiting? || s.runners[p].phase.Locking?)
  }

  ghost predicate MutualExclusion(s: State) {
    forall p, q :: Ready(s, p) && Ready(s, q) ==> p == q
  }

  /** The table may hold a row left behind by a process of the past, under study or not. */
  ghost predicate Initial(s: State) {
    && AtMostOneRow(s.table)
    && "" !in s.runners
    && forall p :: p in s.runners ==> s.runners[p] == INITIAL
  }

  ghost predicate IsRun(ttl: string -> int, states: seq<State>, actions: seq<Action>) {
    && |states| == |actions| + 1
    && Initial(states[0])
    && forall i :: 0 <= i < |actions| ==>
         Enabled(states[i], actions[i]) && states[i + 1] == Next(ttl, states[i], actions[i])
  }

  /**
   * What can happen next to a process, whatever the others do: it starts or repeats a call, makes an attempt with any
   * fault at any time up to now, stops, releases, crashes at any point, and starts again after that.
   */
  lemma {:induction false} NothingBlocks(s: State, p: string, pick: string, now: int, fault: Fault, d: nat)
    requires p in s.runners
    ensures Enabled(s, Advance(d)) && Enabled(s, Crash(p))
    ensures match s.runners[p].phase
            case NotStarted => Enabled(s, StartLock(p))
            case Locking(_, _, _) =>
              now <= s.clock && (s.table == map[] || pick in s.table) ==> Enabled(s, TryLock(p, pick, now, fault))
            case Waiting => Enabled(s, StartLock(p)) && Enabled(s, Stop(p))
            case Releasing(_) => Enabled(s, TryRelease(p, fault))
            case Exited => Enabled(s, Restart(p))
  {
  }

  // ----- The calls of a run are those of the runner -----

  /** The attempts of p's Lock call since it last began one. */
  ghost function TriesOf(states: seq<State>, actions: seq<Action>, i: nat, p: string): seq<Try>
    requires i <= |actions| <= |states|
  {
    if i == 0 || actions[i - 1] == StartLock(p) then []
    else if actions[i - 1].TryLock? && actions[i - 1].p == p
    then TriesOf(states, actions, i - 1, p) + [TryOf(states[i - 1], actions[i - 1])]
    else TriesOf(states, actions, i - 1, p)
  }

  ghost predicate NoneRefused(lock: Lock, tries: seq<Try>) {
    forall k :: 0 <= k < |tries| && ValidTry(tries[k]) ==> !LockAttempt(lock, tries[k]).refused
  }

  lemma EarlierAndLast(lock: Lock, tries: seq<Try>, t: Try)
    requires ValidTry(t)
    ensures NoneRefused(lock, tries + [t]) <==> NoneRefused(lock, tries) && !LockAttempt(lock, t).refused
  {
    var all := tries + [t];
    assert forall k :: 0 <= k < |tries| ==> all[k] == tries[k];
    assert all[|tries|] == t;
  }

  /** All attempts so far had a bad connection, and the flag says whether one was refused. */
  ghost predicate CallGoesOn(lock: Lock, tries: seq<Try>, phase: Phase)
    requires phase.Locking?
  {
    && |tries| == phase.attempt <= 2
    && (forall k :: 0 <= k < |tries| ==>
          ValidTry(tries[k]) && LockAttempt(lock, tries[k]).error == Some(BadConn))
    && (phase.unrefused <==> NoneRefused(lock, tries))
  }

  lemma {:induction false} OneMoreTry(lock: Lock, tries: seq<Try>, t: Try, r: Runner)
    requires r.phase.Locking? && CallGoesOn(lock, tries, r.phase) && ValidTry(t)
    ensures var o := LockAttempt(lock, t);
            if |tries| < 2 && o.error == Some(BadConn)
            then AfterAttempt(r, o).phase.Locking? && CallGoesOn(lock, tries + [t], AfterAttempt(r, o).phase)
            else !AfterAttempt(r, o).phase.Locking?
  {
    EarlierAndLast(lock, tries, t);
  }

  lemma {:induction false} CallUnderWay(
    ttl: string -> int, states: seq<State>, actions: seq<Action>, i: nat, p: string)
    requires IsRun(ttl, states, actions) && i < |states|
    requires p in states[i].runners && states[i].runners[p].phase.Locking?
    ensures CallGoesOn(Lock(p, ttl(p)), TriesOf(states, actions, i, p), states[i].runners[p].phase)
  {
    if i > 0 {
      var s, a := states[i - 1], actions[i - 1];
      assert Enabled(s, a) && states[i] == Next(ttl, s, a);
      if a != StartLock(p) {
        assert p in s.runners && s.runners[p].phase.Locking?;
        CallUnderWay(ttl, states, actions, i - 1, p);
        if a.TryLock? && a.p == p {
          OneMoreTry(Lock(p, ttl(p)), TriesOf(states, actions, i - 1, p), TryOf(s, a), s.runners[p]);
        }
      }
    }
  }

  /**
   * In every run, whatever other processes do in between, a call is one of Lock: it goes on after a bad connection,
   * with three attempts at most, and then acquired means that no attempt was refused. The first call closes ready
   * whatever its error; a later one closes it if it was not closed, and on an error the process starts to release.
   */
  lemma {:induction false} CallEndsLikeLock(ttl: string -> int, states: seq<State>, actions: seq<Action>, i: nat)
    requires IsRun(ttl, states, actions) && i < |actions| && actions[i].TryLock?
    ensures var p := actions[i].p;
            var lock, tries := Lock(p, ttl(p)), TriesOf(states, actions, i + 1, p);
            var r, error := states[i].runners[p], LockAttempt(lock, TryOf(states[i], actions[i])).error;
            var acquired := NoneRefused(lock, tries);
            var closes := acquired && (r.phase.first || (error.None? && r.waiting));
            && 1 <= |tries| <= 3
            && states[i + 1].runners[p]
               == if |tries| < 3 && error == Some(BadConn)
                  then r.(phase := Locking(r.phase.first, |tries|, acquired))
                  else Runner(if error.Some? && !r.phase.first then Releasing(0) else Waiting,
                              r.waiting && !closes, if closes then r.closed + 1 else r.closed)
  {
    var p := actions[i].p;
    CallUnderWay(ttl, states, actions, i, p);
    assert states[i + 1] == Next(ttl, states[i], actions[i]);
    var lock, before, t := Lock(p, ttl(p)), TriesOf(states, actions, i, p), TryOf(states[i], actions[i]);
    assert TriesOf(states, actions, i + 1, p) == before + [t];
    EarlierAndLast(lock, before, t);
    if states[i].runners[p].phase.first {
      assert FirstIsWaiting(states[i]) by { FirstCallsWait(ttl, states, actions, i); }
    }
  }

  ghost predicate FirstIsWaiting(s: State) {
    forall p :: p in s.runners ==> FreshIfFirst(s.runners[p])
  }

  lemma {:induction false} FirstCallsWait(ttl: string -> int, states: seq<State>, actions: seq<Action>, i: nat)
    requires IsRun(ttl, states, actions) && i < |states|
    ensures FirstIsWaiting(states[i])
  {
    if i > 0 {
      FirstCallsWait(ttl, states, actions, i - 1);
      assert states[i] == Next(ttl, states[i - 1], actions[i - 1]);
    }
  }

  /** A release goes on after a bad connection, with three attempts at most; then the process has exited. */
  lemma ReleaseEnds(ttl: string -> int, s: State, a: Action)
    requires Enabled(s, a) && a.TryRelease?
    ensures var r, error := s.runners[a.p], ReleaseAttempt(s.table, a.p, a.fault).error;
            Next(ttl, s, a).runners[a.p]
            == r.(phase := if r.phase.attempt < 2 && error == Some(BadConn) then Releasing(r.phase.attempt + 1)
                           else Exited)
  {
  }

  // ----- The table, in every run -----

  ghost predicate FreshIfFirst(r: Runner) {
    r.phase.NotStarted? || (r.phase.Locking? && r.phase.first) ==> r.waiting && r.closed == 0
  }

  ghost predicate TableSafe(s: State) {
    && AtMostOneRow(s.table)
    && "" !in s.runners
    && forall p :: p in s.runners ==> Consistent(s.runners[p]) && FreshIfFirst(s.runners[p])
  }

  /** What a Lock transaction does to the table: nothing, or it leaves the caller's row alone there, renewed or new. */
  lemma {:induction false} OwnAttempt(ttl: string -> int, s: State, a: Action)
    requires Enabled(s, a) && a.TryLock? && AtMostOneRow(s.table) && a.p != ""
    ensures var o := LockAttempt(Lock(a.p, ttl(a.p)), TryOf(s, a));
            && AtMostOneRow(o.table)
            && (Renews(TryOf(s, a), o) ==>
                 o.table == map[a.p := Row(a.now, if a.p in s.table then s.table[a.p].ttl else Seconds(ttl(a.p)))])
            && (!Renews(TryOf(s, a), o) ==> o.table == s.table)
            && (!o.refused && o.error.None? ==> Renews(TryOf(s, a), o))
  {
    LockKeepsOneRow(Lock(a.p, ttl(a.p)), TryOf(s, a));
    assert s.table != map[] ==> a.pick in s.table;
  }

  lemma {:induction false} StepKeepsTable(ttl: string -> int, s: State, a: Action)
    requires TableSafe(s) && Enabled(s, a)
    ensures TableSafe(Next(ttl, s, a))
  {
    if a.TryLock? {
      OwnAttempt(ttl, s, a);
    } else if a.TryRelease? {
      ReleaseKeepsOneRow(s.table, a.p, a.fault);
    }
  }

  /** In every reachable state the table has at most one row, and no runner has closed ready twice since it started. */
  lemma {:induction false} TableAlwaysSafe(ttl: string -> int, states: seq<State>, actions: seq<Action>, i: nat)
    requires IsRun(ttl, states, actions) && i < |states|
    ensures TableSafe(states[i])
    ensures forall p :: p in states[i].runners ==> states[i].runners[p].closed <= 1
  {
    if i > 0 {
      TableAlwaysSafe(ttl, states, actions, i - 1);
      StepKeepsTable(ttl, states[i - 1], actions[i - 1]);
    }
  }

  /** The two ways to lose a row: one's own release, or another's attempt strictly after timestamp plus ttl. */
  predicate Loses(s: State, a: Action, p: string) {
    && p in s.table
    && ((a.TryRelease? && a.p == p) || (a.TryLock? && a.p != p && Expired(s.table[p], a.now)))
  }

  /** A row that stays is as it was, but for the time of its owner's renewal. */
  lemma {:induction false} RowStays(ttl: string -> int, s: State, a: Action, p: string)
    requires TableSafe(s) && Enabled(s, a) && p in s.table
    ensures var after := Next(ttl, s, a).table;
            if p in after
            then after[p] == s.table[p] || (a.TryLock? && a.p == p && after[p] == s.table[p].(timestamp := a.now))
            else Loses(s, a, p)
  {
    if a.TryLock? {
      OwnAttempt(ttl, s, a);
      if a.p != p {
        TakenOnlyWhenExpired(Lock(a.p, ttl(a.p)), TryOf(s, a), p);
      }
    }
  }

  /** In every run, whatever fails: a row disappears only by its owner's release or after it has expired. */
  lemma {:induction false} RowLostOnlyWhen(
    ttl: string -> int, states: seq<State>, actions: seq<Action>, i: nat, j: nat, p: string)
    requires IsRun(ttl, states, actions) && i <= j < |states|
    requires p in states[i].table && p !in states[j].table
    ensures exists k :: i <= k < j && Loses(states[k], actions[k], p)
    decreases j
  {
    var k := j - 1;
    if p in states[k].table {
      TableAlwaysSafe(ttl, states, actions, k);
      RowStays(ttl, states[k], actions[k], p);
      assert Loses(states[k], actions[k], p);
    } else {
      RowLostOnlyWhen(ttl, states, actions, i, k, p);
    }
  }

  lemma {:induction false} StepShowsTtl(ttl: string -> int, s: State, a: Action, p: string)
    requires TableSafe(s) && Enabled(s, a) && p in Next(ttl, s, a).table
    requires p in s.table ==> s.table[p].ttl == Seconds(ttl(p))
    ensures Next(ttl, s, a).table[p].ttl == Seconds(ttl(p))
  {
    if a.TryLock? {
      OwnAttempt(ttl, s, a);
    }
  }

  /**
   * A row shows its owner's ttl exactly if it showed it at the start, or has been missing in between: only an insertion
   * writes the ttl, a renewal leaves it as it is.
   */
  lemma {:induction false} RowShowsTtl(ttl: string -> int, states: seq<State>, actions: seq<Action>, i: nat, p: string)
    requires IsRun(ttl, states, actions) && i < |states| && p in states[i].table
    ensures states[i].table[p].ttl == Seconds(ttl(p))
            <==> (p in states[0].table && states[0].table[p].ttl == Seconds(ttl(p)))
                 || exists k :: 0 <= k < i && p !in states[k].table
  {
    if i > 0 {
      var j := i - 1;
      TableAlwaysSafe(ttl, states, actions, j);
      if p in states[j].table {
        RowShowsTtl(ttl, states, actions, j, p);
        RowStays(ttl, states[j], actions[j], p);
      } else {
        StepShowsTtl(ttl, states[j], actions[j], p);
      }
    }
  }

  /** A first table that shows the difference: a process restarted with another ttl renews the row it left. */
  lemma {:induction false} RenewalKeepsOldTtl(ttl: string -> int)
    requires Seconds(ttl("a")) != 60
    ensures var s0 := State(map["a" := Row(0, 60)], 0, map["a" := INITIAL], map[]);
            && Initial(s0)
            && Enabled(s0, StartLock("a")) && var s1 := Next(ttl, s0, StartLock("a"));
            && Enabled(s1, TryLock("a", "a", 0, NoFault)) && var s2 := Next(ttl, s1, TryLock("a", "a", 0, NoFault));
            && Ready(s2, "a") && s2.table == map["a" := Row(0, 60)]
            && s2.table["a"].ttl != Seconds(ttl("a"))
  {
  }

  /** After a release that ended without an error, a process that asks without a fault gets ready, at once. */
  lemma {:induction false} ReleaseLetsNextIn(ttl: string -> int, s: State, a: Action, b: Action)
    requires TableSafe(s) && Enabled(s, a) && a.TryRelease? && a.p in s.table
    requires ReleaseAttempt(s.table, a.p, a.fault).error.None?
    requires b.TryLock? && b.p != a.p && b.fault.NoFault? && Enabled(Next(ttl, s, a), b)
    requires s.runners[b.p].phase.unrefused && s.runners[b.p].waiting
    ensures var t := Next(ttl, Next(ttl, s, a), b);
            Ready(t, b.p) && t.table == map[b.p := Row(b.now, Seconds(ttl(b.p)))]
  {
    StepKeepsTable(ttl, s, a);
    ReleaseFreesLock(s.table, a.p, a.fault, Lock(b.p, ttl(b.p)), b.pick, b.now);
  }

  // ----- Who is ready, under two hypotheses -----

  /** First hypothesis: no first call reports the lock together with an error. */
  ghost predicate CleanFirstCall(ttl: string -> int, s: State, a: Action)
    requires Enabled(s, a)
  {
    a.TryLock? && s.runners[a.p].phase.first ==>
      var o := LockAttempt(Lock(a.p, ttl(a.p)), TryOf(s, a));
      var r := s.runners[a.p];
      !Retries(r.phase.attempt, o.error) && r.phase.unrefused && !o.refused ==> o.error.None?
  }

  /** The lease of a process: the ttl its row shows. */
  function Lease(ttl: string -> int, s: State, p: string): int {
    if p in s.table then s.table[p].ttl else Seconds(ttl(p))
  }

  /** Second hypothesis: every ready process has renewed no longer ago than its lease. */
  ghost predicate RenewedInTime(ttl: string -> int, s: State) {
    forall p :: Ready(s, p) ==> p in s.lastRenewal && s.clock <= s.lastRenewal[p] + SECOND * Lease(ttl, s, p)
  }

  /** Both hypotheses along the first n steps of a run. */
  ghost predicate Lawful(ttl: string -> int, states: seq<State>, actions: seq<Action>, n: nat)
    requires IsRun(ttl, states, actions) && n < |states|
  {
    forall i :: 0 <= i < n ==> RenewedInTime(ttl, states[i]) && CleanFirstCall(ttl, states[i], actions[i])
  }

  /** The row of a ready process is the only one, and shows its last renewal. */
  ghost predicate Owns(s: State, p: string) {
    && p in s.lastRenewal && p in s.table
    && s.table == map[p := Row(s.lastRenewal[p], s.table[p].ttl)]
  }

  ghost predicate Invariant(s: State) {
    && TableSafe(s)
    && (forall p :: Ready(s, p) ==> Owns(s, p))
  }

  lemma {:induction false} ReadyRowsExclude(s: State)
    requires Invariant(s)
    ensures MutualExclusion(s)
  {
    forall p, q | Ready(s, p) && Ready(s, q) ensures p == q {
      assert Owns(s, p) && Owns(s, q);
      assert p in s.table.Keys && q in s.table.Keys;
    }
  }

  /** While another process is ready and in time, an attempt gets nothing. */
  lemma {:induction false} OthersRefused(ttl: string -> int, s: State, a: Action, p: string)
    requires Enabled(s, a) && a.TryLock? && a.p != p && p != ""
    requires Owns(s, p) && s.clock <= s.lastRenewal[p] + SECOND * s.table[p].ttl
    ensures var o := LockAttempt(Lock(a.p, ttl(a.p)), TryOf(s, a));
            && o.table == s.table
            && !Renews(TryOf(s, a), o)
            && (!a.fault.AtBegin? ==> o.refused)
            && (o.refused || o.error.Some?)
  {
    assert p in s.table;
  }

  lemma {:induction false} TryLockPreserves(ttl: string -> int, s: State, a: Action)
    requires Invariant(s) && Enabled(s, a) && a.TryLock?
    requires RenewedInTime(ttl, s) && CleanFirstCall(ttl, s, a)
    ensures Invariant(Next(ttl, s, a))
  {
    var t := Next(ttl, s, a);
    var o := LockAttempt(Lock(a.p, ttl(a.p)), TryOf(s, a));
    StepKeepsTable(ttl, s, a);
    OwnAttempt(ttl, s, a);
    forall p | Ready(t, p) ensures Owns(t, p) {
      if p != a.p {
        assert Ready(s, p);
        OthersRefused(ttl, s, a, p);
      } else if Ready(s, p) {
        assert Owns(s, p);
      } else {
        assert !o.refused && o.error.None?;
      }
    }
  }

  lemma {:induction false} OtherStepPreserves(ttl: string -> int, s: State, a: Action)
    requires Invariant(s) && Enabled(s, a) && !a.TryLock?
    ensures Invariant(Next(ttl, s, a))
  {
    var t := Next(ttl, s, a);
    StepKeepsTable(ttl, s, a);
    if a.TryRelease? {
      ReleaseKeepsOneRow(s.table, a.p, a.fault);
    }
    forall p | Ready(t, p) ensures Owns(t, p) {
      assert Ready(s, p);
    }
  }

  lemma {:induction false} RunPreserves(ttl: string -> int, states: seq<State>, actions: seq<Action>, n: nat)
    requires IsRun(ttl, states, actions) && n < |states| && Lawful(ttl, states, actions, n)
    ensures Invariant(states[n])
  {
    if n > 0 {
      var s, a := states[n - 1], actions[n - 1];
      RunPreserves(ttl, states, actions, n - 1);
      if a.TryLock? {
        TryLockPreserves(ttl, s, a);
      } else {
        OtherStepPreserves(ttl, s, a);
      }
    }
  }

  /**
   * For any number of processes, each with its own ttl, and any interleaving with crashes, restarts and takeovers: as
   * long as the two hypotheses held so far, at most one process is ready, and its row is the only one.
   */
  lemma {:induction false} LeaseMutualExclusion(ttl: string -> int, states: seq<State>, actions: seq<Action>, n: nat)
    requires IsRun(ttl, states, actions) && n < |states| && Lawful(ttl, states, actions, n)
    ensures MutualExclusion(states[n])
    ensures forall p :: Ready(states[n], p) ==> states[n].table.Keys == {p}
  {
    RunPreserves(ttl, states, actions, n);
    ReadyRowsExclude(states[n]);
    forall p | Ready(states[n], p) ensures states[n].table.Keys == {p} {
      assert Owns(states[n], p);
    }
  }

  // ----- Exactly when it breaks -----

  /** Nobody else has a lease that still runs. */
  predicate Free(s: State, a: Action)
    requires a.TryLock?
  {
    forall p :: p in s.table && p != a.p ==> Expired(s.table[p], a.now)
  }

  /** No statement before the commit fails; the expiry check and the removal are only made when another has the row. */
  predicate GoesThrough(s: State, a: Action)
    requires a.TryLock?
  {
    && !a.fault.AtBegin? && !a.fault.AtFetch? && !a.fault.AtWrite?
    && (s.table != map[] && a.p !in s.table ==> !a.fault.AtExpiryClock? && !a.fault.AtRemove?)
  }

  /** The attempt fails and its call tries again. */
  predicate TriesAgain(s: State, a: Action, error: Error)
    requires a.TryLock? && a.p in s.runners && s.runners[a.p].phase.Locking?
  {
    Retries(s.runners[a.p].phase.attempt, Some(error))
  }

  /**
   * A process that was not ready gets ready by this step: in its first call by failing to begin, or by going through
   * while nobody else has a lease that runs; only in its first call may the commit fail.
   */
  predicate GetsReady(s: State, a: Action)
    requires Enabled(s, a)
  {
    a.TryLock? &&
      var r := s.runners[a.p];
      && r.waiting && r.phase.unrefused
      && if a.fault.AtBegin? then r.phase.first && !TriesAgain(s, a, a.fault.error)
         else
           && Free(s, a) && GoesThrough(s, a)
           && (a.fault.AtCommit? ==> r.phase.first && !TriesAgain(s, a, a.fault.error))
  }

  lemma {:induction false} GoesThroughIff(ttl: string -> int, s: State, a: Action)
    requires TableSafe(s) && Enabled(s, a) && a.TryLock?
    ensures var o := LockAttempt(Lock(a.p, ttl(a.p)), TryOf(s, a));
            && (!o.refused <==> a.fault.AtBegin? || (Free(s, a) && GoesThrough(s, a)))
            && (!o.refused ==> o.error == if a.fault.AtBegin? || a.fault.AtCommit? then Some(a.fault.error) else None)
  {
    assert s.table != map[] ==> a.pick in s.table;
  }

  /** From any state a run can reach, exactly these steps make a process ready. */
  lemma {:induction false} GetsReadyIff(ttl: string -> int, s: State, a: Action, p: string)
    requires TableSafe(s) && Enabled(s, a)
    ensures Ready(Next(ttl, s, a), p) && !Ready(s, p) <==> a.TryLock? && a.p == p && GetsReady(s, a)
  {
    if a.TryLock? {
      GoesThroughIff(ttl, s, a);
    }
  }

  /** A second process gets ready. */
  ghost predicate Breaks(s: State, a: Action)
    requires Enabled(s, a)
  {
    a.TryLock? && GetsReady(s, a) && exists q :: q != a.p && Ready(s, q)
  }

  lemma {:induction false} StepBreaksIff(ttl: string -> int, s: State, a: Action)
    requires TableSafe(s) && Enabled(s, a) && MutualExclusion(s)
    ensures !MutualExclusion(Next(ttl, s, a)) <==> Breaks(s, a)
  {
    var t := Next(ttl, s, a);
    forall p ensures Ready(t, p) && !Ready(s, p) <==> a.TryLock? && a.p == p && GetsReady(s, a) {
      GetsReadyIff(ttl, s, a, p);
    }
    if Breaks(s, a) {
      var q :| q != a.p && Ready(s, q);
      assert Ready(t, q) && !Ready(s, a.p) && Ready(t, a.p);
    }
  }

  lemma {:induction false} UnbrokenExcludes(ttl: string -> int, states: seq<State>, actions: seq<Action>, i: nat)
    requires IsRun(ttl, states, actions) && i < |states|
    requires forall k :: 0 <= k < |actions| ==> !Breaks(states[k], actions[k])
    ensures MutualExclusion(states[i])
  {
    if i > 0 {
      UnbrokenExcludes(ttl, states, actions, i - 1);
      TableAlwaysSafe(ttl, states, actions, i - 1);
      StepBreaksIff(ttl, states[i - 1], actions[i - 1]);
    }
  }

  /**
   * Exactly how the exclusion breaks: in every run, whatever its states, at most one process is ready in all of them if
   * and only if no step gets a process ready while another is.
   */
  lemma {:induction false} ExclusionExactlyIf(ttl: string -> int, states: seq<State>, actions: seq<Action>)
    requires IsRun(ttl, states, actions)
    ensures (forall i :: 0 <= i < |states| ==> MutualExclusion(states[i]))
            <==> forall i :: 0 <= i < |actions| ==> !Breaks(states[i], actions[i])
  {
    if forall i :: 0 <= i < |states| ==> MutualExclusion(states[i]) {
      forall i | 0 <= i < |actions| ensures !Breaks(states[i], actions[i]) {
        TableAlwaysSafe(ttl, states, actions, i);
        StepBreaksIff(ttl, states[i], actions[i]);
        assert states[i + 1] == Next(ttl, states[i], actions[i]);
      }
    }
    if forall i :: 0 <= i < |actions| ==> !Breaks(states[i], actions[i]) {
      forall i | 0 <= i < |states| ensures MutualExclusion(states[i]) {
        UnbrokenExcludes(ttl, states, actions, i);
      }
    }
  }

  /**
   * The same while the ready process owns its row. With q ready and owning the row, an attempt that ends p's call makes
   * p ready as well if and only if q's lease had run out and nothing failed, or the call was p's first and it failed to
   * begin, or failed to commit the takeover of a lease that had run out.
   */
  lemma {:induction false} SecondReadyIff(ttl: string -> int, s: State, a: Action, q: string)
    requires Invariant(s) && Enabled(s, a) && a.TryLock? && a.p != q && Ready(s, q)
    requires var o := LockAttempt(Lock(a.p, ttl(a.p)), TryOf(s, a)); !Retries(s.runners[a.p].phase.attempt, o.error)
    requires s.runners[a.p].phase.unrefused && s.runners[a.p].waiting
    ensures var lapsed := s.lastRenewal[q] + SECOND * Lease(ttl, s, q) < a.now;
            Ready(Next(ttl, s, a), a.p) && Ready(Next(ttl, s, a), q) <==>
            || (lapsed && a.fault.NoFault?)
            || (s.runners[a.p].phase.first && (a.fault.AtBegin? || (lapsed && a.fault.AtCommit?)))
  {
    assert Owns(s, q);
    assert q in s.table;
  }

  /** A run, whatever the ttls, in which nothing but a first call's failed begin makes two processes ready. */
  lemma {:induction false} FailedBeginBreaksExclusion(ttl: string -> int)
    requires 0 <= ttl("a")
    ensures var s0 := State(map[], 0, map["a" := INITIAL, "b" := INITIAL], map[]);
            && Initial(s0)
            && Enabled(s0, StartLock("a")) && var s1 := Next(ttl, s0, StartLock("a"));
            && Enabled(s1, TryLock("a", "", 0, NoFault)) && var s2 := Next(ttl, s1, TryLock("a", "", 0, NoFault));
            && Enabled(s2, StartLock("b")) && var s3 := Next(ttl, s2, StartLock("b"));
            && var begin := TryLock("b", "a", 0, AtBegin(OtherError));
            && Enabled(s3, begin) && var s4 := Next(ttl, s3, begin);
            && !MutualExclusion(s4) && RenewedInTime(ttl, s2) && RenewedInTime(ttl, s3)
  {
    var s0 := State(map[], 0, map["a" := INITIAL, "b" := INITIAL], map[]);
    var s1 := Next(ttl, s0, StartLock("a"));
    var s2 := Next(ttl, s1, TryLock("a", "", 0, NoFault));
    var s3 := Next(ttl, s2, StartLock("b"));
    assert "a" in s2.table;
    var s4 := Next(ttl, s3, TryLock("b", "a", 0, AtBegin(OtherError)));
    assert Ready(s4, "a") && Ready(s4, "b");
  }

  /**
   * A run, whatever the ttls, in which a process gets ready without a row, as its first call fails to begin; then no
   * lease keeps the next one, whose call meets no failure, from getting ready as well.
   */
  lemma {:induction false} NoRowBreaksExclusion(ttl: string -> int)
    ensures var s0 := State(map[], 0, map["a" := INITIAL, "b" := INITIAL], map[]);
            && Initial(s0)
            && Enabled(s0, StartLock("b")) && var s1 := Next(ttl, s0, StartLock("b"));
            && var begin := TryLock("b", "", 0, AtBegin(OtherError));
            && Enabled(s1, begin) && var s2 := Next(ttl, s1, begin);
            && Enabled(s2, StartLock("a")) && var s3 := Next(ttl, s2, StartLock("a"));
            && var clean := TryLock("a", "", 0, NoFault);
            && Enabled(s3, clean) && CleanFirstCall(ttl, s3, clean)
            && MutualExclusion(s3) && !Invariant(s3) && Breaks(s3, clean)
            && !MutualExclusion(Next(ttl, s3, clean))
  {
    var s0 := State(map[], 0, map["a" := INITIAL, "b" := INITIAL], map[]);
    var s1 := Next(ttl, s0, StartLock("b"));
    var s2 := Next(ttl, s1, TryLock("b", "", 0, AtBegin(OtherError)));
    var s3 := Next(ttl, s2, StartLock("a"));
    assert Ready(s3, "b") && !Ready(s3, "a") && s3.table == map[];
    assert !Owns(s3, "b");
    var s4 := Next(ttl, s3, TryLock("a", "", 0, NoFault));
    assert Ready(s4, "a") && Ready(s4, "b");
  }
}
