/** The runner that acquires the lock, reports readiness once, renews, and releases. */
module DatabaseLocks {
  import opened Common
  import opened LockTables

  /**
   * Where a process stands. A call in progress has made attempt transactions so far and found nothing against it if
   * unrefused.
   */
  datatype Phase =
    | NotStarted
    | Locking(first: bool, attempt: nat, unrefused: bool)
    | Waiting
    | Releasing(attempt: nat)
    | Exited

  /** waiting is the runner's readyToAcquireLock; closed counts how often it closed the ready channel. */
  datatype Runner = Runner(phase: Phase, waiting: bool, closed: nat)

  const INITIAL := Runner(NotStarted, true, 0)

  function CloseReady(r: Runner): Runner {
    r.(waiting := false, closed := r.closed + 1)
  }

  /** After the first Lock call: its error is only logged. */
  function AfterFirst(r: Runner, acquired: bool, error: Option<Error>): Runner {
    (if acquired then CloseReady(r) else r).(phase := Waiting)
  }

  /** After a later Lock call: an error ends the runner. */
  function AfterTick(r: Runner, acquired: bool, error: Option<Error>): Runner {
    if error.Some? then r.(phase := Releasing(0))
    else (if acquired && r.waiting then CloseReady(r) else r).(phase := Waiting)
  }

  /** What ends one round of the runner's loop. */
  datatype Event =
    | Signal(releaseError: Option<Error>)
    | Tick(acquired: bool, error: Option<Error>, releaseError: Option<Error>)

  datatype Exit = StillRunning | Returned | ExitCode(code: int)

  function Step(r: Runner, e: Event): Runner {
    match e
    case Signal(_) => r.(waiting := true, phase := Exited)
    case Tick(acquired, error, _) =>
      var after := AfterTick(r, acquired, error);
      if after.phase.Releasing? then after.(phase := Exited) else after
  }

  function Run(r: Runner, events: seq<Event>): Runner {
    if events == [] then r
    else
      var n := |events| - 1;
      var before := Run(r, events[..n]);
      if before.phase == Exited then before else Step(before, events[n])
  }

  /** Until it exits the runner has closed ready exactly when it no longer waits for the lock. */
  ghost predicate Consistent(r: Runner) {
    && r.closed <= 1
    && (r.phase != Exited ==> (r.waiting <==> r.closed == 0))
  }

  lemma {:induction false} RunConsistent(acquired: bool, error: Option<Error>, events: seq<Event>)
    ensures Consistent(Run(AfterFirst(INITIAL, acquired, error), events))
  {
    if events != [] {
      RunConsistent(acquired, error, events[..|events| - 1]);
    }
  }

  /** Once ready has been closed it stays so: no event closes it again, none reopens it. */
  lemma {:induction false} ReadyClosedOnce(acquired: bool, error: Option<Error>, events: seq<Event>, more: seq<Event>)
    requires Run(AfterFirst(INITIAL, acquired, error), events).closed == 1
    ensures Run(AfterFirst(INITIAL, acquired, error), events + more).closed == 1
  {
    if more == [] {
      assert events + more == events;
    } else {
      var m := |more| - 1;
      ReadyClosedOnce(acquired, error, events, more[..m]);
      RunConsistent(acquired, error, events + more[..m]);
      assert (events + more)[..|events| + m] == events + more[..m];
    }
  }

  predicate Ends(e: Event) {
    e.Signal? || e.error.Some?
  }

  /** Event n is the first to end the loop: a signal lets the runner return, a failed Lock call kills its process. */
  ghost predicate EndsWith(events: seq<Event>, n: nat, exit: Exit) {
    && n < |events| && Ends(events[n])
    && (forall i :: 0 <= i < n ==> !Ends(events[i]))
    && exit == if events[n].Signal? then Returned else ExitCode(1)
  }

  /** Event n is a Lock call that acquires without an error, met before anything ended the loop. */
  ghost predicate Acquires(events: seq<Event>, n: nat) {
    && n < |events| && events[n].Tick? && events[n].acquired && events[n].error.None?
    && forall i :: 0 <= i < n ==> !Ends(events[i])
  }

  class DatabaseLock {
    /** How often ready was closed, and how often the lock was released. */
    var closed: nat
    var releases: nat

    constructor ()
      ensures closed == releases == 0
    {
      closed, releases := 0, 0;
    }

    /** The runner's event loop, over the events it meets until it exits or none are left. */
    method InitDBLockRunner(owner: string, acquired: bool, error: Option<Error>, events: seq<Event>)
      returns (exit: Exit)
      requires closed == releases == 0
      modifies this
      ensures owner == "" ==> exit == ExitCode(1) && closed == releases == 0
      ensures owner != "" ==>
        var r := Run(AfterFirst(INITIAL, acquired, error), events);
        && closed == r.closed <= 1
        && (exit == StillRunning <==> r.phase != Exited)
      ensures owner != "" ==>
        (closed == 1 <==> acquired || exists n: nat :: Acquires(events, n))
      ensures owner != "" ==>
        (exit == StillRunning <==> forall i :: 0 <= i < |events| ==> events[i].Tick? && events[i].error.None?)
      ensures owner != "" ==>
        (exit == Returned <==> exists n :: 0 <= n < |events| && events[n].Signal?
                                           && forall i :: 0 <= i < n ==> events[i].Tick? && events[i].error.None?)
      ensures owner != "" ==>
        if exit == StillRunning then releases == 0 && forall i :: 0 <= i < |events| ==> !Ends(events[i])
        else releases == 1 && exists n: nat :: EndsWith(events, n, exit)
    {
      var readyToAcquireLock := true;
      if owner == "" {
        return ExitCode(1);
      }
      if acquired {
        readyToAcquireLock := false;
        closed := closed + 1;
      }
      exit := StillRunning;
      ghost var first := AfterFirst(INITIAL, acquired, error);
      var i := 0;
      while i < |events|
        invariant 0 <= i <= |events|
        invariant closed == Run(first, events[..i]).closed
        invariant readyToAcquireLock == Run(first, events[..i]).waiting
        invariant Run(first, events[..i]).phase == Waiting
        invariant closed == 0 ==> !acquired && forall n: nat :: n < i ==> !Acquires(events, n)
        invariant closed != 0 ==> acquired || exists n: nat :: Acquires(events, n)
        invariant releases == 0 && forall k :: 0 <= k < i ==> !Ends(events[k])
      {
        assert events[..i + 1][..i] == events[..i];
        RunConsistent(acquired, error, events[..i + 1]);
        match events[i] {
          case Signal(_) =>
            releases := releases + 1;
            readyToAcquireLock := true;
            StaysExited(first, events, i + 1);
            assert EndsWith(events, i, Returned);
            return Returned;
          case Tick(isLockAcquired, lockErr, _) =>
            if lockErr.Some? {
              releases := releases + 1;
              StaysExited(first, events, i + 1);
              assert EndsWith(events, i, ExitCode(1));
              return ExitCode(1);
            }
            assert isLockAcquired ==> Acquires(events, i);
            if isLockAcquired && readyToAcquireLock {
              readyToAcquireLock := false;
              closed := closed + 1;
            }
        }
        i := i + 1;
      }
      assert events[..i] == events;
      RunConsistent(acquired, error, events);
    }
  }

  lemma {:induction false} StaysExited(r: Runner, events: seq<Event>, i: nat)
    requires i <= |events| && Run(r, events[..i]).phase == Exited
    ensures Run(r, events) == Run(r, events[..i])
  {
    if i < |events| {
      var n := |events| - 1;
      assert events[..n][..i] == events[..i];
      StaysExited(r, events[..n], i);
    } else {
      assert events[..i] == events;
    }
  }
}
