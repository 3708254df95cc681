/**
 The `_task_queue` table: one record per row, and the row effect of every SQL
 statement that `TaskQueue` sends.  Each statement is one atomic step.

 Every effect is first a function on the table, so that the state machine of
 `TaskMachine` can use it, and then a method of the class `TaskQueue`, which
 holds the table and updates it in place as the program does.
 */
module TaskTable {
  import opened Wrappers

  type TaskId = nat

  // `Failed` exists in the program but no statement ever writes it.
  datatype Status = Pending | Running | Completed | Failed | DeadLetter

  datatype Task = Task(
    queue: string,
    status: Status,
    retryCount: int,
    maxRetries: int,
    scheduledAt: Option<int>,
    lockedAt: Option<int>,
    createdAt: int,
    completedAt: Option<int>,
    error: Option<string>)

  type Table = map<TaskId, Task>

  // `run_worker` reclaims tasks whose lock is older than this.
  const STALE_SECS := 300

  // `now + 2^k seconds` leaves the range of the date type for k >= 43, and the addition panics ...
  const MAX_BACKOFF_EXP := 42

  // ... until 2^k wraps to zero in 64 bits; release builds do not check for overflow.
  const POWER_BITS := 64

  /** The `as i32` cast of an unsigned 32-bit retry limit. */
  function AsI32(u: nat): int
    requires u < 0x1_0000_0000
  {
    if u < 0x8000_0000 then u else u - 0x1_0000_0000
  }

  function Pow2(k: nat): nat {
    if k == 0 then 1 else 2 * Pow2(k - 1)
  }

  /** Exponential growth: exponents add up, from 2 for one. */
  lemma {:induction false} Pow2Adds(j: nat, k: nat)
    ensures Pow2(j + k) == Pow2(j) * Pow2(k) && Pow2(1) == 2
  {
    if k == 0 {
      assert Pow2(1) == 2 * Pow2(0);
    } else {
      Pow2Adds(j, k - 1);
      assert Pow2(j + k) == 2 * Pow2(j + k - 1) && Pow2(k) == 2 * Pow2(k - 1);
      assert Pow2(j) * (2 * Pow2(k - 1)) == 2 * (Pow2(j) * Pow2(k - 1));
    }
  }

  // ----- the statements -----

  function NewTask(queue: string, delaySecs: nat, maxRetries: nat, now: int, createdAt: int): Task
    requires maxRetries < 0x1_0000_0000
  {
    Task(queue, Pending, 0, AsI32(maxRetries), if delaySecs > 0 then Some(now + delaySecs) else None,
         None, createdAt, None, None)
  }

  /** `pending`, in the queue, and `scheduled_at` unset or reached. */
  predicate Eligible(t: Task, queue: string, now: int) {
    t.queue == queue && t.status == Pending && (t.scheduledAt.None? || t.scheduledAt.value <= now)
  }

  /** What the claim SELECT may return: an eligible row that no other eligible row precedes by `created_at`. */
  predicate IsNext(rows: Table, queue: string, now: int, id: TaskId) {
    && id in rows
    && Eligible(rows[id], queue, now)
    && forall j | j in rows && Eligible(rows[j], queue, now) :: rows[id].createdAt <= rows[j].createdAt
  }

  function ClaimRow(rows: Table, id: TaskId, now: int): Table {
    if id in rows && rows[id].status == Pending
    then rows[id := rows[id].(status := Running, lockedAt := Some(now), retryCount := rows[id].retryCount + 1)]
    else rows
  }

  function CompleteRow(rows: Table, id: TaskId, now: int): Table {
    if id in rows then rows[id := rows[id].(status := Completed, completedAt := Some(now))] else rows
  }

  /** `2i64.pow(retry_count as u32)` seconds, if they can be added to the date; a negative count casts to a huge exponent. */
  function Backoff(retryCount: int): Option<nat> {
    if 0 <= retryCount <= MAX_BACKOFF_EXP then Some(Pow2(retryCount))
    else if MAX_BACKOFF_EXP < retryCount < POWER_BITS then None
    else Some(0)
  }

  /** What `fail` decides after its SELECT; a backoff that cannot be added panics. */
  datatype Verdict = Requeue(retryAt: int) | Bury | Panic

  function Judge(t: Task, now: int): Verdict {
    if t.retryCount >= t.maxRetries then Bury
    else match Backoff(t.retryCount)
      case Some(secs) => Requeue(now + secs)
      case None => Panic
  }

  function RequeueRow(rows: Table, id: TaskId, retryAt: int, error: string): Table {
    if id in rows
    then rows[id := rows[id].(status := Pending, scheduledAt := Some(retryAt), error := Some(error), lockedAt := None)]
    else rows
  }

  function BuryRow(rows: Table, id: TaskId, now: int, error: string): Table {
    if id in rows
    then rows[id := rows[id].(status := DeadLetter, completedAt := Some(now), error := Some(error))]
    else rows
  }

  /** `status = 'running' AND locked_at < cutoff`, in one queue or in all; a null lock time never compares. */
  predicate Stale(t: Task, queue: Option<string>, cutoff: int) {
    t.status == Running && t.lockedAt.Some? && t.lockedAt.value < cutoff && (queue.None? || queue.value == t.queue)
  }

  function ReclaimRows(rows: Table, queue: Option<string>, cutoff: int): Table {
    map id | id in rows :: if Stale(rows[id], queue, cutoff) then rows[id].(status := Pending, lockedAt := None) else rows[id]
  }

  predicate Purgeable(t: Task, cutoff: int) {
    t.status == Completed && t.completedAt.Some? && t.completedAt.value < cutoff
  }

  function PurgeRows(rows: Table, cutoff: int): Table {
    map id | id in rows && !Purgeable(rows[id], cutoff) :: rows[id]
  }

  function RetryRow(rows: Table, id: TaskId): Table {
    if id in rows
    then rows[id := rows[id].(status := Pending, retryCount := 0, lockedAt := None, completedAt := None,
                              error := None, scheduledAt := None)]
    else rows
  }

  /** A nonempty set of rows has an oldest one. */
  lemma {:induction false} Oldest(rows: Table, ids: set<TaskId>) returns (id: TaskId)
    requires ids <= rows.Keys && ids != {}
    ensures id in ids && forall j | j in ids :: rows[id].createdAt <= rows[j].createdAt
    decreases ids
  {
    var first :| first in ids;
    var rest := ids - {first};
    assert ids == rest + {first};
    id := first;
    if rest != {} {
      var k := Oldest(rows, rest);
      if rows[k].createdAt < rows[first].createdAt { id := k; }
    }
  }

  /** Whenever some row is eligible, the claim SELECT has a row to return. */
  lemma SomeNext(rows: Table, queue: string, now: int)
    requires exists id :: id in rows && Eligible(rows[id], queue, now)
    ensures exists id :: id in rows && IsNext(rows, queue, now, id)
  {
    var ids := set id | id in rows && Eligible(rows[id], queue, now);
    var one :| one in rows && Eligible(rows[one], queue, now);
    assert one in ids;
    var id := Oldest(rows, ids);
    assert IsNext(rows, queue, now, id);
  }

  /** No row but `id` was added, removed or changed. */
  ghost predicate SameElsewhere(before: Table, after: Table, id: TaskId) {
    after.Keys == before.Keys && forall j | j in before && j != id :: after[j] == before[j]
  }

  // ----- the object that sends them -----

  class TaskQueue {
    var rows: Table

    constructor ()
      ensures rows == map[]
    {
      rows := map[];
    }

    /** A waiting row without attempts; the limit goes through a cast to 32 signed bits. */
    method Enqueue(id: TaskId, queue: string, delaySecs: nat, maxRetries: nat, now: int, createdAt: int)
      requires id !in rows && maxRetries < 0x1_0000_0000
      modifies this
      ensures rows.Keys == old(rows).Keys + {id} && forall j | j in old(rows) :: rows[j] == old(rows)[j]
      ensures rows[id].queue == queue && rows[id].status == Pending && rows[id].retryCount == 0
      ensures rows[id].maxRetries == if maxRetries < 0x8000_0000 then maxRetries else maxRetries - 0x1_0000_0000
      ensures rows[id].scheduledAt == if delaySecs == 0 then None else Some(now + delaySecs)
      ensures rows[id].createdAt == createdAt && rows[id].lockedAt.None? && rows[id].completedAt.None? && rows[id].error.None?
      ensures forall t :: Eligible(rows[id], queue, t) <==> delaySecs == 0 || now + delaySecs <= t
    {
      rows := rows[id := NewTask(queue, delaySecs, maxRetries, now, createdAt)];
    }

    /** First half of `claim_next`: an oldest eligible row, or none when no row is eligible. */
    method ClaimSelect(queue: string, now: int) returns (r: Option<TaskId>)
      ensures r.Some? ==> IsNext(rows, queue, now, r.value)
      ensures r.Some? ==>
                && r.value in rows && rows[r.value].queue == queue && rows[r.value].status == Pending
                && (rows[r.value].scheduledAt.Some? ==> rows[r.value].scheduledAt.value <= now)
      ensures forall id | id in rows && rows[id].queue == queue && rows[id].status == Pending
                          && (rows[id].scheduledAt.Some? ==> rows[id].scheduledAt.value <= now) ::
                r.Some? && rows[r.value].createdAt <= rows[id].createdAt
      ensures r.None? ==> forall id | id in rows :: !Eligible(rows[id], queue, now)
    {
      if exists id | id in rows :: Eligible(rows[id], queue, now) {
        SomeNext(rows, queue, now);
        var id :| id in rows && IsNext(rows, queue, now, id);
        r := Some(id);
      } else {
        r := None;
      }
    }

    /** Second half: take the row only if it is still pending. */
    method ClaimUpdate(id: TaskId, now: int) returns (won: bool)
      modifies this
      ensures won <==> id in old(rows) && old(rows)[id].status == Pending
      ensures !won ==> rows == old(rows)
      ensures SameElsewhere(old(rows), rows, id)
      ensures won ==>
                rows[id] == old(rows)[id].(status := Running, lockedAt := Some(now), retryCount := old(rows)[id].retryCount + 1)
    {
      won := id in rows && rows[id].status == Pending;
      rows := ClaimRow(rows, id, now);
    }

    /** The row is completed whatever its status was; its attempts, lock time and schedule stay. */
    method Complete(id: TaskId, now: int)
      modifies this
      ensures SameElsewhere(old(rows), rows, id)
      ensures id in rows ==> rows[id] == old(rows)[id].(status := Completed, completedAt := Some(now))
    {
      rows := CompleteRow(rows, id, now);
    }

    /** First half of `fail`; a missing row leaves nothing to do. */
    method FailSelect(id: TaskId, now: int) returns (v: Option<Verdict>)
      ensures v.None? <==> id !in rows
      ensures v == Some(Bury) <==> id in rows && rows[id].retryCount >= rows[id].maxRetries
      ensures v.Some? && v.value.Panic? <==>
                id in rows && rows[id].retryCount < rows[id].maxRetries && 43 <= rows[id].retryCount <= 63
      ensures v.Some? && v.value.Requeue? ==>
                if 0 <= rows[id].retryCount < 64 then v.value.retryAt == now + Pow2(rows[id].retryCount)
                else v.value.retryAt == now
    {
      v := if id in rows then Some(Judge(rows[id], now)) else None;
    }

    /** Second half: written whatever the row has become meanwhile; the attempts stay, a buried row keeps its lock time. */
    method FailUpdate(id: TaskId, v: Verdict, now: int, error: string)
      requires !v.Panic?
      modifies this
      ensures SameElsewhere(old(rows), rows, id)
      ensures id in rows && v.Requeue? ==>
                && (forall t :: Eligible(rows[id], rows[id].queue, t) <==> v.retryAt <= t)
                && rows[id] == old(rows)[id].(status := Pending, scheduledAt := Some(v.retryAt), error := Some(error), lockedAt := None)
      ensures id in rows && v.Bury? ==>
                && (forall t :: !Eligible(rows[id], rows[id].queue, t))
                && rows[id] == old(rows)[id].(status := DeadLetter, completedAt := Some(now), error := Some(error))
    {
      rows := if v.Requeue? then RequeueRow(rows, id, v.retryAt, error) else BuryRow(rows, id, now, error);
    }

    /** `reclaim_stale` without a queue, `reclaim_stale_for_queue` with one: afterwards no row there is stale. */
    method ReclaimStale(queue: Option<string>, timeoutSecs: nat, now: int) returns (count: nat)
      modifies this
      ensures rows.Keys == old(rows).Keys
      ensures forall id | id in rows ::
                if && old(rows)[id].status == Running && (queue.None? || queue.value == old(rows)[id].queue)
                   && old(rows)[id].lockedAt.Some? && old(rows)[id].lockedAt.value < now - timeoutSecs
                then rows[id] == old(rows)[id].(status := Pending, lockedAt := None)
                else rows[id] == old(rows)[id]
      ensures forall id | id in rows :: !Stale(rows[id], queue, now - timeoutSecs)
      ensures count == |set id | id in old(rows) && Stale(old(rows)[id], queue, now - timeoutSecs)|
    {
      count := |set id | id in rows && Stale(rows[id], queue, now - timeoutSecs)|;
      rows := ReclaimRows(rows, queue, now - timeoutSecs);
    }

    method PurgeCompleted(olderThanSecs: nat, now: int) returns (count: nat)
      modifies this
      ensures forall id :: id in rows <==>
                id in old(rows) && !(&& old(rows)[id].status == Completed && old(rows)[id].completedAt.Some?
                                     && old(rows)[id].completedAt.value < now - olderThanSecs)
      ensures forall id | id in rows :: rows[id] == old(rows)[id]
      ensures count == |old(rows)| - |rows|
    {
      var kept := PurgeRows(rows, now - olderThanSecs);
      PurgeShrinks(rows, now - olderThanSecs);
      count := |rows| - |kept|;
      rows := kept;
    }

    /** The task may be claimed at once, with its full budget of attempts, whatever its status was. */
    method RetryDeadLetter(id: TaskId)
      modifies this
      ensures SameElsewhere(old(rows), rows, id)
      ensures id in rows ==>
                && rows[id].status == Pending && rows[id].retryCount == 0 && rows[id].scheduledAt.None? && rows[id].lockedAt.None?
                && rows[id].completedAt.None? && rows[id].error.None?
                && rows[id].queue == old(rows)[id].queue && rows[id].maxRetries == old(rows)[id].maxRetries
                && rows[id].createdAt == old(rows)[id].createdAt
      ensures id in rows ==> forall now :: Eligible(rows[id], rows[id].queue, now)
    {
      rows := RetryRow(rows, id);
    }
  }

  lemma PurgeShrinks(rows: Table, cutoff: int)
    ensures |PurgeRows(rows, cutoff)| <= |rows|
  {
    var kept := PurgeRows(rows, cutoff);
    assert rows.Keys == kept.Keys + (rows.Keys - kept.Keys);
  }
}
