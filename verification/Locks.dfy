/** Stale-lock diagnosis and reconciliation over timestamps stored as text. */
module Locks {
  import opened Prelude
  import opened Text
  import opened Timestamps

  type LockId = string

  datatype Lock = Lock(projectId: string, expiresAt: Option<string>, updatedAt: string)
  type LockTable = map<LockId, Lock>

  predicate InScope(lock: Lock, projectId: Option<string>) {
    projectId.None? || lock.projectId == projectId.value
  }

  /** `expires_at < now`; a NULL expiry never compares as smaller. */
  predicate IsStale(lock: Lock, now: string) {
    lock.expiresAt.Some? && Less(lock.expiresAt.value, now)
  }

  predicate ReleasedCleanly(lock: Lock) {
    lock.expiresAt == Some(lock.updatedAt)
  }

  /** The locks the `stale_locks` check counts as orphaned. */
  function Orphaned(locks: LockTable, projectId: Option<string>, now: string): set<LockId> {
    set id | id in locks && InScope(locks[id], projectId) && IsStale(locks[id], now) && !ReleasedCleanly(locks[id])
  }

  function StaleIds(locks: LockTable, projectId: Option<string>, now: string): set<LockId> {
    set id | id in locks && InScope(locks[id], projectId) && IsStale(locks[id], now)
  }

  function Reconciled(locks: LockTable, projectId: Option<string>, now: string): LockTable {
    map id | id in locks ::
      if InScope(locks[id], projectId) && IsStale(locks[id], now)
      then locks[id].(expiresAt := Some(now), updatedAt := now) else locks[id]
  }

  class Diagnostics {
    var locks: LockTable

    constructor (locks: LockTable)
      ensures this.locks == locks
    {
      this.locks := locks;
    }

    /** The `stale_locks` check: select the stale locks, then drop the cleanly released ones. */
    method CheckStaleLocks(projectId: Option<string>, now: string) returns (healthy: bool, orphans: set<LockId>)
      ensures orphans == Orphaned(locks, projectId, now)
      ensures healthy <==> forall id <- locks ::
                InScope(locks[id], projectId) && IsStale(locks[id], now) ==> ReleasedCleanly(locks[id])
      ensures forall id :: id in orphans <==>
                && id in locks && (projectId.None? || locks[id].projectId == projectId.value)
                && locks[id].expiresAt.Some? && Less(locks[id].expiresAt.value, now) && locks[id].expiresAt.value != locks[id].updatedAt
    {
      var stale := StaleIds(locks, projectId, now);
      orphans := set id | id in stale && !ReleasedCleanly(locks[id]);
      healthy := orphans == {};
      if healthy {
        forall id | id in locks && InScope(locks[id], projectId) && IsStale(locks[id], now)
          ensures ReleasedCleanly(locks[id])
        {
          assert id !in orphans;
        }
      } else {
        var id :| id in orphans;
        assert id in locks && InScope(locks[id], projectId) && IsStale(locks[id], now) && !ReleasedCleanly(locks[id]);
      }
    }

    /** Whatever others do to the locks meanwhile: callers know no more than this contract says. */
    method Meanwhile()
      modifies this
    {
    }

    /** The stale locks are counted, and then, unless there are none, all that are stale by then are cleared;
      * `between` are the locks when the clearing UPDATE runs. The number reported is that of the locks cleared
      * if nobody has changed which locks are stale in between. */
    method ReconcileStaleLocks(projectId: Option<string>, now: string) returns (reported: nat, ghost between: LockTable)
      modifies this
      ensures reported == |old(StaleIds(locks, projectId, now))|
      ensures locks == if reported > 0 then Reconciled(between, projectId, now) else between
      ensures reported > 0 ==> Orphaned(locks, projectId, now) == {}
      ensures StaleIds(between, projectId, now) == old(StaleIds(locks, projectId, now)) ==>
                && locks == Reconciled(between, projectId, now)
                && Orphaned(locks, projectId, now) == {}
                && reported == |StaleIds(between, projectId, now)|
      ensures locks.Keys == between.Keys
      ensures forall id <- locks :: locks[id] == between[id] || (
                && (projectId.None? || between[id].projectId == projectId.value)
                && between[id].expiresAt.Some? && Less(between[id].expiresAt.value, now)
                && locks[id] == Lock(between[id].projectId, Some(now), now))
    {
      reported := |StaleIds(locks, projectId, now)|;
      Meanwhile();
      between := locks;
      ReconcileClears(locks, projectId, now, now);
      if reported > 0 {
        locks := Reconciled(locks, projectId, now);
      } else if StaleIds(locks, projectId, now) == {} {
        assert forall id <- locks :: id !in StaleIds(locks, projectId, now);
        assert locks == Reconciled(locks, projectId, now);
      }
    }
  }

  /** After a reconcile at `now`, a check at any `later` time, over the same project, counts exactly the
    * orphans that had not yet expired at `now`; at `now` itself it counts none. */
  lemma ReconcileClears(locks: LockTable, projectId: Option<string>, now: string, later: string)
    requires AtMost(now, later)
    ensures Orphaned(Reconciled(locks, projectId, now), projectId, later)
            == (set id | id in Orphaned(locks, projectId, later) && !IsStale(locks[id], now))
    ensures Orphaned(Reconciled(locks, projectId, now), projectId, now) == {}
  {
    Irreflexive(now);
    var after := Reconciled(locks, projectId, now);
    forall id | id in locks && InScope(locks[id], projectId) && IsStale(locks[id], now)
      ensures id !in Orphaned(after, projectId, later)
    {
      assert ReleasedCleanly(after[id]);
    }
    forall id | id in Orphaned(after, projectId, now) ensures false {
    }
  }

  // ---------- the same locks as instants ----------

  datatype TimedLock = TimedLock(projectId: string, expiresAt: Option<int>, updatedAt: int)

  predicate InRange(t: int) {
    FIRST <= t <= LAST
  }

  predicate Storable(lock: TimedLock) {
    InRange(lock.updatedAt) && (lock.expiresAt.Some? ==> InRange(lock.expiresAt.value))
  }

  function Stored(lock: TimedLock): Lock
    requires Storable(lock)
  {
    Lock(lock.projectId,
         if lock.expiresAt.Some? then Some(ToIsoString(lock.expiresAt.value)) else None,
         ToIsoString(lock.updatedAt))
  }

  /** On texts written by `toISOString`, a lock counts as orphaned exactly when its expiry lies before now
    * and is not the instant of its last update. */
  lemma OrphanedIsExpired(lock: TimedLock, now: int)
    requires Storable(lock) && InRange(now)
    ensures IsStale(Stored(lock), ToIsoString(now)) && !ReleasedCleanly(Stored(lock))
            <==> lock.expiresAt.Some? && lock.expiresAt.value < now && lock.expiresAt.value != lock.updatedAt
  {
    if lock.expiresAt.Some? {
      TextOrderIsTimeOrder(lock.expiresAt.value, now);
      TextOrderIsTimeOrder(lock.expiresAt.value, lock.updatedAt);
    }
  }
}
