/** The lease table and the transactions on it. */
module LockTables {
  import opened Common

  /** A row as stored: the time of the last renewal and the lease in whole seconds. */
  datatype Row = Row(timestamp: int, ttl: int)

  /** The owner is the primary key. */
  type Table = map<string, Row>

  /** A request for the lock; its lease is a duration in nanoseconds. */
  datatype Lock = Lock(owner: string, ttl: int)

  datatype Error = BadConn | OtherError

  /** The statement at which a transaction fails. A failing commit may still have been applied. */
  datatype Fault =
    | NoFault
    | AtBegin(error: Error)
    | AtFetch(error: Error)
    | AtExpiryClock(error: Error)
    | AtRemove(error: Error)
    | AtWrite(error: Error)
    | AtCommit(error: Error, applied: bool)

  /** What one attempt meets: the table it finds, the row its one-row query picks, its database time and its fault. */
  datatype Try = Try(table: Table, pick: string, now: int, fault: Fault)

  /** The table after an attempt, whether it ruled the lock out, and its error. */
  datatype Outcome = Outcome(table: Table, refused: bool, error: Option<Error>)

  /** Whole seconds of a duration, cut off towards zero. */
  function Seconds(duration: int): int {
    if 0 <= duration then duration / SECOND else -(-duration / SECOND)
  }

  lemma SecondsAreWhole(duration: int)
    ensures 0 <= duration ==> Seconds(duration) * 1_000_000_000 <= duration < (Seconds(duration) + 1) * 1_000_000_000
    ensures duration < 0 ==> (Seconds(duration) - 1) * 1_000_000_000 < duration <= Seconds(duration) * 1_000_000_000
  {
  }

  predicate Expired(row: Row, now: int) {
    row.timestamp + SECOND * row.ttl < now
  }

  function FreshRow(lock: Lock, now: int): Row {
    Row(now, Seconds(lock.ttl))
  }

  predicate HeldByOther(t: Try, owner: string) {
    t.table != map[] && t.pick != owner && t.pick != ""
  }

  ghost predicate ValidTry(t: Try) {
    t.table != map[] ==> t.pick in t.table
  }

  function Committed(table: Table, changed: Table, refused: bool, fault: Fault): Outcome {
    if fault.AtCommit? then Outcome(if fault.applied then changed else table, refused, Some(fault.error))
    else Outcome(changed, refused, None)
  }

  /** Inserting a second row for an owner violates the primary key. */
  function Inserted(table: Table, free: Table, lock: Lock, now: int, fault: Fault): Outcome {
    if fault.AtWrite? then Outcome(table, true, Some(fault.error))
    else if lock.owner in free then Outcome(table, true, Some(OtherError))
    else Committed(table, free[lock.owner := FreshRow(lock, now)], false, fault)
  }

  /** One transaction of Lock. */
  function LockAttempt(lock: Lock, t: Try): Outcome
    requires ValidTry(t)
  {
    if t.fault.AtBegin? then Outcome(t.table, false, Some(t.fault.error))
    else if t.fault.AtFetch? then Outcome(t.table, true, Some(t.fault.error))
    else if t.table == map[] then Inserted(t.table, t.table, lock, t.now, t.fault)
    else if HeldByOther(t, lock.owner) then
      if t.fault.AtExpiryClock? then Outcome(t.table, true, Some(t.fault.error))
      else if !Expired(t.table[t.pick], t.now) then Committed(t.table, t.table, true, t.fault)
      else if t.fault.AtRemove? then Outcome(t.table, true, Some(t.fault.error))
      else Inserted(t.table, t.table - {t.pick}, lock, t.now, t.fault)
    else if t.fault.AtWrite? then Outcome(t.table, true, Some(t.fault.error))
    else Committed(t.table, Renewed(t.table, lock.owner, t.now), false, t.fault)
  }

  /** The update of a renewal; it touches no row if the owner has none. */
  function Renewed(table: Table, owner: string, now: int): Table {
    if owner in table then table[owner := table[owner].(timestamp := now)] else table
  }

  /** One transaction of Release. */
  function ReleaseAttempt(table: Table, owner: string, fault: Fault): Outcome {
    if fault.AtBegin? || fault.AtWrite? then Outcome(table, false, Some(fault.error))
    else Committed(table, table - {owner}, false, fault)
  }

  const MAX_ATTEMPTS := 3

  predicate Retries(attempt: nat, error: Option<Error>) {
    attempt + 1 < MAX_ATTEMPTS && error == Some(BadConn)
  }

  ghost predicate ValidTries(tries: seq<Try>) {
    |tries| == MAX_ATTEMPTS && forall i :: 0 <= i < |tries| ==> ValidTry(tries[i])
  }

  /** The attempt that ends the call. */
  ghost predicate IsLastAttempt(lock: Lock, tries: seq<Try>, n: nat)
    requires ValidTries(tries)
  {
    && n < MAX_ATTEMPTS
    && (forall i :: 0 <= i < n ==> LockAttempt(lock, tries[i]).error == Some(BadConn))
    && !Retries(n, LockAttempt(lock, tries[n]).error)
  }

  /** The attempt that ends a call of Release, which finds tables[i] and meets faults[i] at its i-th attempt. */
  ghost predicate IsLastRelease(owner: string, tables: seq<Table>, faults: seq<Fault>, n: nat)
    requires |tables| == |faults| == MAX_ATTEMPTS
  {
    && n < MAX_ATTEMPTS
    && (forall i :: 0 <= i < n ==> ReleaseAttempt(tables[i], owner, faults[i]).error == Some(BadConn))
    && !Retries(n, ReleaseAttempt(tables[n], owner, faults[n]).error)
  }

  /** The answer of a call that ends with attempt n: acquired, unless some attempt was refused. */
  ghost predicate Acquired(lock: Lock, tries: seq<Try>, n: nat)
    requires ValidTries(tries) && n < MAX_ATTEMPTS
  {
    forall i :: 0 <= i <= n ==> !LockAttempt(lock, tries[i]).refused
  }

  class LockSQLDB {
    var table: Table
    /** The table as the open transaction sees it. */
    var tx: Table

    constructor ()
      ensures table == map[]
    {
      table, tx := map[], map[];
    }

    method Fetch(t: Try) returns (fetched: Option<string>, error: Option<Error>)
      requires tx == t.table && ValidTry(t)
      ensures error == if t.fault.AtFetch? then Some(t.fault.error) else None
      ensures error.None? ==> fetched == if t.table == map[] then None else Some(t.pick)
    {
      if t.fault.AtFetch? {
        return None, Some(t.fault.error);
      }
      if tx == map[] {
        return None, None;
      }
      return Some(t.pick), None;
    }

    method Remove(owner: string, fault: Fault) returns (error: Option<Error>)
      modifies this`tx
      ensures error == if fault.AtRemove? then Some(fault.error) else None
      ensures error.None? ==> tx == old(tx) - {owner}
    {
      if fault.AtRemove? {
        return Some(fault.error);
      }
      tx := tx - {owner};
      return None;
    }

    method Insert(lock: Lock, now: int, fault: Fault) returns (error: Option<Error>)
      modifies this`tx
      ensures error.None? <==> !fault.AtWrite? && lock.owner !in old(tx)
      ensures error.Some? ==> error.value == if fault.AtWrite? then fault.error else OtherError
      ensures error.None? ==> tx == old(tx)[lock.owner := FreshRow(lock, now)]
    {
      if fault.AtWrite? {
        return Some(fault.error);
      }
      if lock.owner in tx {
        return Some(OtherError);
      }
      tx := tx[lock.owner := Row(now, Seconds(lock.ttl))];
      return None;
    }

    method Renew(owner: string, now: int, fault: Fault) returns (error: Option<Error>)
      modifies this`tx
      ensures error == if fault.AtWrite? then Some(fault.error) else None
      ensures error.None? ==> tx == Renewed(old(tx), owner, now)
    {
      if fault.AtWrite? {
        return Some(fault.error);
      }
      if owner in tx {
        tx := tx[owner := tx[owner].(timestamp := now)];
      }
      return None;
    }

    /** Removes the caller's row, in a transaction repeated while its connection is bad. */
    method Release(owner: string, tables: seq<Table>, faults: seq<Fault>) returns (error: Option<Error>, ghost n: nat)
      requires |tables| == |faults| == MAX_ATTEMPTS
      modifies this
      ensures IsLastRelease(owner, tables, faults, n)
      ensures n <= 2 && (n < 2 ==> error != Some(BadConn))
      ensures ReleaseAttempt(tables[n], owner, faults[n]) == Outcome(table, false, error)
      ensures error.None? ==> owner !in table
      ensures error == if faults[n].AtBegin? || faults[n].AtWrite? || faults[n].AtCommit? then Some(faults[n].error)
                       else None
      ensures faults[n].AtBegin? || faults[n].AtWrite? || (faults[n].AtCommit? && !faults[n].applied) ==>
                table == tables[n]
      ensures faults[n].AtCommit? && faults[n].applied ==> owner !in table
      ensures forall p :: p != owner ==> (p in table <==> p in tables[n]) && (p in table ==> table[p] == tables[n][p])
    {
      var attempts := 0;
      while true
        invariant 0 <= attempts < MAX_ATTEMPTS
        invariant forall i :: 0 <= i < attempts ==> ReleaseAttempt(tables[i], owner, faults[i]).error == Some(BadConn)
        decreases MAX_ATTEMPTS - attempts
      {
        error := ReleaseTransaction(owner, tables[attempts], faults[attempts]);
        if attempts >= 2 || error != Some(BadConn) {
          n := attempts;
          return;
        }
        attempts := attempts + 1;
      }
    }

    method ReleaseTransaction(owner: string, found: Table, fault: Fault) returns (error: Option<Error>)
      modifies this
      ensures ReleaseAttempt(found, owner, fault) == Outcome(table, false, error)
    {
      table := found;
      if fault.AtBegin? || fault.AtWrite? {
        return Some(fault.error);
      }
      tx := table - {owner};
      if !fault.AtCommit? || fault.applied {
        table := tx;
      }
      return if fault.AtCommit? then Some(fault.error) else None;
    }

    /** The body of Lock's transaction; refused is what it does to the captured flag. */
    method LockBody(lock: Lock, t: Try) returns (refused: bool, error: Option<Error>)
      requires tx == t.table && ValidTry(t) && !t.fault.AtBegin? && t.table == table
      modifies this`tx
      ensures error.Some? ==> LockAttempt(lock, t) == Outcome(table, refused, error)
      ensures error.None? ==> LockAttempt(lock, t) == Committed(table, tx, refused, t.fault)
    {
      var newLock := false;
      var fetched, e := Fetch(t);
      if e.None? && fetched.None? {
        newLock := true;
      } else if e.Some? {
        return true, e;
      } else if fetched.value != lock.owner && fetched.value != "" {
        if t.fault.AtExpiryClock? {
          return true, Some(t.fault.error);
        }
        var row := tx[fetched.value];
        if row.timestamp + SECOND * row.ttl < t.now {
          e := Remove(fetched.value, t.fault);
          if e.Some? {
            return true, e;
          }
          newLock := true;
        } else {
          return true, None;
        }
      }
      if newLock {
        e := Insert(lock, t.now, t.fault);
      } else {
        e := Renew(lock.owner, t.now, t.fault);
      }
      return e.Some?, e;
    }

    /** One round of transact: begin, run the body, commit or roll back. */
    method LockTransaction(lock: Lock, t: Try) returns (refused: bool, error: Option<Error>)
      requires ValidTry(t)
      modifies this
      ensures LockAttempt(lock, t) == Outcome(table, refused, error)
    {
      table := t.table;
      if t.fault.AtBegin? {
        return false, Some(t.fault.error);
      }
      tx := table;
      refused, error := LockBody(lock, t);
      if error.Some? {
        return;
      }
      if !t.fault.AtCommit? || t.fault.applied {
        table := tx;
      }
      if t.fault.AtCommit? {
        error := Some(t.fault.error);
      }
    }

    /**
     * Acquires or renews. The flag is captured across attempts: once an attempt has ruled the lock out, a later
     * attempt that succeeds does not set it back.
     */
    method Lock(lock: Lock, tries: seq<Try>) returns (isLockAcquired: bool, error: Option<Error>, ghost n: nat)
      requires ValidTries(tries)
      modifies this
      ensures IsLastAttempt(lock, tries, n)
      ensures n <= 2 && (n < 2 ==> error != Some(BadConn))
      ensures isLockAcquired <==> Acquired(lock, tries, n)
      ensures error == LockAttempt(lock, tries[n]).error && table == LockAttempt(lock, tries[n]).table
      ensures isLockAcquired && error.None? && lock.owner != "" && AtMostOneRow(tries[n].table) ==>
                table.Keys == {lock.owner} && table[lock.owner].timestamp == tries[n].now
    {
      isLockAcquired := true;
      var attempts := 0;
      while true
        invariant 0 <= attempts < MAX_ATTEMPTS
        invariant isLockAcquired <==> forall i :: 0 <= i < attempts ==> !LockAttempt(lock, tries[i]).refused
        invariant forall i :: 0 <= i < attempts ==> LockAttempt(lock, tries[i]).error == Some(BadConn)
        decreases MAX_ATTEMPTS - attempts
      {
        var refused;
        refused, error := LockTransaction(lock, tries[attempts]);
        if refused {
          isLockAcquired := false;
        }
        if attempts >= 2 || error != Some(BadConn) {
          n := attempts;
          if isLockAcquired && error.None? && lock.owner != "" && AtMostOneRow(tries[n].table) {
            LockMeansRow(lock, tries, n);
          }
          return;
        }
        attempts := attempts + 1;
      }
    }
  }

  predicate AtMostOneRow(table: Table) {
    "" !in table && forall p, q :: p in table && q in table ==> p == q
  }

  /** Every transaction of a named owner leaves at most one row. */
  lemma {:induction false} LockKeepsOneRow(lock: Lock, t: Try)
    requires ValidTry(t) && AtMostOneRow(t.table) && lock.owner != ""
    ensures AtMostOneRow(LockAttempt(lock, t).table)
  {
    if t.table == map[] {
    } else {
      assert forall p :: p in t.table ==> p == t.pick;
    }
  }

  lemma {:induction false} ReleaseKeepsOneRow(table: Table, owner: string, fault: Fault)
    requires AtMostOneRow(table)
    ensures AtMostOneRow(ReleaseAttempt(table, owner, fault).table)
    ensures forall p :: p in table && p != owner ==>
              p in ReleaseAttempt(table, owner, fault).table && ReleaseAttempt(table, owner, fault).table[p] == table[p]
  {
  }

  /**
   * An owner loses its row to another's Lock only strictly after its lease ran out, and otherwise keeps it unchanged.
   */
  lemma {:induction false} TakenOnlyWhenExpired(lock: Lock, t: Try, p: string)
    requires ValidTry(t) && AtMostOneRow(t.table) && p in t.table && p != lock.owner
    ensures var after := LockAttempt(lock, t).table;
            if p in after then after[p] == t.table[p]
            else t.table[p].timestamp + 1_000_000_000 * t.table[p].ttl < t.now
  {
    assert p == t.pick;
  }

  /** Without a fault the lock is refused while another's lease runs, and else granted with the caller's ttl. */
  lemma {:induction false} FaultFreeLock(lock: Lock, table: Table, pick: string, now: int)
    requires AtMostOneRow(table) && (table != map[] ==> pick in table) && lock.owner != "" && lock.owner !in table
    ensures var o := LockAttempt(lock, Try(table, pick, now, NoFault));
            && o.error.None?
            && (o.refused <==> exists p :: p in table && now <= table[p].timestamp + 1_000_000_000 * table[p].ttl)
            && o.table == if o.refused then table else map[lock.owner := Row(now, Seconds(lock.ttl))]
  {
    if table != map[] {
      assert forall p :: p in table ==> p == pick;
      assert table - {pick} == map[];
    }
  }

  /** Without a fault the caller that has the row gets it again, at the new time and with its old ttl. */
  lemma {:induction false} FaultFreeRenewal(lock: Lock, table: Table, pick: string, now: int)
    requires AtMostOneRow(table) && pick in table && lock.owner in table
    ensures LockAttempt(lock, Try(table, pick, now, NoFault))
            == Outcome(map[lock.owner := Row(now, table[lock.owner].ttl)], false, None)
  {
    assert forall p :: p in table ==> p == lock.owner;
    assert table[lock.owner := Row(now, table[lock.owner].ttl)] == map[lock.owner := Row(now, table[lock.owner].ttl)];
  }

  /** Whether the transaction comes to the statement that fails. */
  predicate ComesTo(lock: Lock, t: Try)
    requires ValidTry(t)
  {
    var other := t.table != map[] && t.pick != lock.owner && t.pick != "";
    var lapsed := other && t.table[t.pick].timestamp + 1_000_000_000 * t.table[t.pick].ttl < t.now;
    match t.fault
    case AtExpiryClock(_) => other
    case AtRemove(_) => lapsed
    case AtWrite(_) => !other || lapsed
    case _ => true
  }

  /**
   * A transaction is all or nothing: if a statement fails, nothing has changed and the caller is refused, unless there
   * was no transaction; if the commit fails, it reports the error, and has changed what it would have without one, or
   * nothing. A fault at a statement the transaction does not come to plays no part.
   */
  lemma {:induction false} FaultsRollBack(lock: Lock, t: Try)
    requires ValidTry(t)
    ensures var o, clean := LockAttempt(lock, t), LockAttempt(lock, t.(fault := NoFault));
            match t.fault
            case NoFault => true
            case AtBegin(e) => o == Outcome(t.table, false, Some(e))
            case AtFetch(e) => o == Outcome(t.table, true, Some(e))
            case AtCommit(e, applied) =>
              if clean.error.Some? then o == clean
              else o == Outcome(if applied then clean.table else t.table, clean.refused, Some(e))
            case _ => o == if ComesTo(lock, t) then Outcome(t.table, true, Some(t.fault.error)) else clean
  {
  }

  /** A released lock is free: the next to ask gets it, at once and whatever lease was left. */
  lemma {:induction false} ReleaseFreesLock(
    table: Table, owner: string, fault: Fault, next: Lock, pick: string, now: int)
    requires AtMostOneRow(table) && owner in table && next.owner != ""
    requires ReleaseAttempt(table, owner, fault).error.None?
    requires var free := ReleaseAttempt(table, owner, fault).table; free != map[] ==> pick in free
    ensures LockAttempt(next, Try(ReleaseAttempt(table, owner, fault).table, pick, now, NoFault))
            == Outcome(map[next.owner := Row(now, Seconds(next.ttl))], false, None)
  {
    var free := ReleaseAttempt(table, owner, fault).table;
    assert forall p :: p in free ==> p in table && p != owner;
    assert free == map[];
    FaultFreeLock(next, free, pick, now);
  }

  /** A row without an owner is nobody's and stops nobody: Lock says acquired, and the caller has no row. */
  lemma {:induction false} EmptyOwnerStopsNobody(lock: Lock, row: Row, now: int)
    requires lock.owner != ""
    ensures LockAttempt(lock, Try(map["" := row], "", now, NoFault)) == Outcome(map["" := row], false, None)
  {
    var table := map["" := row];
    assert "" in table && lock.owner !in table;
  }

  /**
   * What Lock's answer means: the row the caller now has, exactly when no attempt was refused and the last one went
   * through.
   */
  lemma {:induction false} LockMeansRow(lock: Lock, tries: seq<Try>, n: nat)
    requires ValidTries(tries) && IsLastAttempt(lock, tries, n) && lock.owner != ""
    requires AtMostOneRow(tries[n].table)
    requires Acquired(lock, tries, n) && LockAttempt(lock, tries[n]).error.None?
    ensures var after := LockAttempt(lock, tries[n]).table;
            && after.Keys == {lock.owner}
            && after[lock.owner].timestamp == tries[n].now
            && (lock.owner !in tries[n].table ==> after[lock.owner] == FreshRow(lock, tries[n].now))
  {
    var t := tries[n];
    LockKeepsOneRow(lock, t);
    assert t.table != map[] ==> t.pick in t.table;
  }

  /** The transaction fails to begin, or fails to commit what it was about to grant. */
  predicate FailsUnrefused(lock: Lock, t: Try)
    requires HeldByOther(t, lock.owner) ==> t.pick in t.table
  {
    || t.fault.AtBegin?
    || (t.fault.AtCommit? &&
        (HeldByOther(t, lock.owner) ==> Expired(t.table[t.pick], t.now) && lock.owner !in t.table))
  }

  lemma {:induction false} UnrefusedError(lock: Lock, t: Try)
    requires ValidTry(t)
    ensures !LockAttempt(lock, t).refused && LockAttempt(lock, t).error.Some? <==> FailsUnrefused(lock, t)
  {
  }

  /**
   * When the answer hides the row. After a call that ends without an error the caller has a row exactly when nobody
   * else had a lease that ran at the last attempt. It is nevertheless told no exactly when an earlier attempt failed in
   * any way but to begin, or to commit what it was about to grant.
   */
  lemma {:induction false} RowWithoutBeingTold(lock: Lock, tries: seq<Try>, n: nat)
    requires ValidTries(tries) && IsLastAttempt(lock, tries, n) && lock.owner != ""
    requires AtMostOneRow(tries[n].table)
    requires LockAttempt(lock, tries[n]).error.None?
    ensures lock.owner in LockAttempt(lock, tries[n]).table
            <==> (HeldByOther(tries[n], lock.owner) ==> Expired(tries[n].table[tries[n].pick], tries[n].now))
    ensures lock.owner in LockAttempt(lock, tries[n]).table && !Acquired(lock, tries, n)
            <==> (HeldByOther(tries[n], lock.owner) ==> Expired(tries[n].table[tries[n].pick], tries[n].now))
                 && exists i :: 0 <= i < n && !FailsUnrefused(lock, tries[i])
  {
    var t := tries[n];
    assert LockAttempt(lock, t).refused
      <==> HeldByOther(t, lock.owner) && !Expired(t.table[t.pick], t.now);
    assert t.table != map[] ==> t.pick in t.table;
    forall i | 0 <= i < n ensures LockAttempt(lock, tries[i]).refused <==> !FailsUnrefused(lock, tries[i]) {
      UnrefusedError(lock, tries[i]);
    }
  }

  /** Such a run: the query of the first attempt meets a bad connection, its retry inserts the row. */
  lemma {:induction false} RefusalOutlivesRetry(lock: Lock)
    requires lock.owner != ""
    ensures var bad := Try(map[], "", 0, AtFetch(BadConn));
            var good := Try(map[], "", 0, NoFault);
            var tries := [bad, good, good];
            && ValidTries(tries) && IsLastAttempt(lock, tries, 1)
            && !Acquired(lock, tries, 1)
            && LockAttempt(lock, tries[1]) == Outcome(map[lock.owner := FreshRow(lock, 0)], false, None)
  {
    var bad, good := Try(map[], "", 0, AtFetch(BadConn)), Try(map[], "", 0, NoFault);
    var tries := [bad, good, good];
    assert tries[0] == bad && LockAttempt(lock, tries[0]).refused;
  }

  /**
   * Lock says acquired together with an error exactly when every attempt it made failed to begin or failed to commit
   * what it was about to grant.
   */
  lemma {:induction false} AcquiredWithError(lock: Lock, tries: seq<Try>, n: nat)
    requires ValidTries(tries) && IsLastAttempt(lock, tries, n)
    ensures Acquired(lock, tries, n) && LockAttempt(lock, tries[n]).error.Some?
            <==> forall i :: 0 <= i <= n ==> FailsUnrefused(lock, tries[i])
  {
    forall i | 0 <= i <= n
      ensures !LockAttempt(lock, tries[i]).refused && LockAttempt(lock, tries[i]).error.Some?
              <==> FailsUnrefused(lock, tries[i])
    {
      UnrefusedError(lock, tries[i]);
    }
  }
}
