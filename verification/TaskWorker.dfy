/** One uninterrupted turn of the `run_worker` loop over the shared table. */
module TaskWorker {
  import opened Wrappers
  import opened TaskTable

  const STALE_CHECK_INTERVAL := 60

  /** The row of a task that was claimed at `claimedAt` and resolved at `doneAt`, from the row before the claim. */
  ghost predicate Resolved(before: Task, after: Task, succeeded: bool, claimedAt: int, doneAt: int, error: string) {
    && after.queue == before.queue && after.createdAt == before.createdAt && after.maxRetries == before.maxRetries
    && after.retryCount == before.retryCount + 1
    && if succeeded then
         after.status == Completed && after.completedAt == Some(doneAt)
       else if after.retryCount >= before.maxRetries then
         after.status == DeadLetter && after.completedAt == Some(doneAt) && after.error == Some(error)
       else if 43 <= after.retryCount <= 63 then
         after.status == Running && after.lockedAt == Some(claimedAt)   // the backoff panicked
       else
         && after.status == Pending && after.error == Some(error) && after.lockedAt == None
         && after.scheduledAt == Some(if 0 <= after.retryCount < 64 then doneAt + Pow2(after.retryCount) else doneAt)
  }

  /** From the table before to the table after: once 60 s have passed, the rows locked more than 300 s ago are waiting again. */
  ghost predicate StaleChecked(before: Table, after: Table, lastCheck: int, now: int) {
    && after.Keys == before.Keys
    && (forall id | id in before ::
          if now - lastCheck >= 60 && before[id].status == Running && before[id].lockedAt.Some? && before[id].lockedAt.value < now - 300
          then after[id] == before[id].(status := Pending, lockedAt := None)
          else after[id] == before[id])
  }

  /** Waiting in the queue, with its delay over. */
  ghost predicate Due(t: Task, queue: string, at: int) {
    t.queue == queue && t.status == Pending && (t.scheduledAt.Some? ==> t.scheduledAt.value <= at)
  }

  class Worker {
    const queueName: string
    var lastStaleCheck: int

    constructor (queueName: string, now: int)
      ensures this.queueName == queueName && lastStaleCheck == now
    {
      this.queueName := queueName;
      lastStaleCheck := now;
    }

    /** Once a minute, give the tasks of slow or crashed workers back. */
    method CheckStale(tasks: TaskQueue, now: int)
      modifies this, tasks
      ensures lastStaleCheck == if now - old(lastStaleCheck) >= 60 then now else old(lastStaleCheck)
      ensures StaleChecked(old(tasks.rows), tasks.rows, old(lastStaleCheck), now)
    {
      if now - lastStaleCheck >= STALE_CHECK_INTERVAL {
        var _ := tasks.ReclaimStale(None, STALE_SECS, now);
        lastStaleCheck := now;
      }
    }

    /** Record the outcome of the handler for the task this worker has just claimed. */
    method Settle(tasks: TaskQueue, id: TaskId, succeeded: bool, doneAt: int, error: string)
      requires id in tasks.rows
      modifies tasks
      ensures tasks.rows == old(tasks.rows)[id := Settled(old(tasks.rows)[id], succeeded, doneAt, error)]
    {
      if succeeded {
        tasks.Complete(id, doneAt);
      } else {
        var verdict := tasks.FailSelect(id, doneAt);
        if verdict.Some? && !verdict.value.Panic? {
          tasks.FailUpdate(id, verdict.value, doneAt, error);
        } else {
          assert tasks.rows == tasks.rows[id := tasks.rows[id]];
        }
      }
    }

    /**
     One turn without interference: after the stale check, which gives the table
     `base`, the oldest eligible task is claimed, handled (`succeeded` is the
     handler's outcome) and resolved, and no other row changes; nothing happens
     only when no task is eligible.
     */
    method Turn(tasks: TaskQueue, now: int, claimedAt: int, doneAt: int, succeeded: bool, error: string)
      returns (task: Option<TaskId>, ghost base: Table)
      modifies this, tasks
      ensures StaleChecked(old(tasks.rows), base, old(lastStaleCheck), now)
      ensures lastStaleCheck == if now - old(lastStaleCheck) >= 60 then now else old(lastStaleCheck)
      ensures if task.None? then tasks.rows == base && forall id | id in base :: !Due(base[id], queueName, claimedAt)
              else
                && task.value in base && Due(base[task.value], queueName, claimedAt)
                && (forall id | id in base && Due(base[id], queueName, claimedAt) :: base[task.value].createdAt <= base[id].createdAt)
                && tasks.rows.Keys == base.Keys
                && (forall id | id in base && id != task.value :: tasks.rows[id] == base[id])
                && Resolved(base[task.value], tasks.rows[task.value], succeeded, claimedAt, doneAt, error)
    {
      CheckStale(tasks, now);
      base := tasks.rows;
      task := tasks.ClaimSelect(queueName, claimedAt);
      if task.Some? {
        var id := task.value;
        var _ := tasks.ClaimUpdate(id, claimedAt);
        Settle(tasks, id, succeeded, doneAt, error);
        SettledIsResolved(base[id], succeeded, claimedAt, doneAt, error);
      }
    }
  }

  /** The row after `complete` or `fail`, from the row read by `fail`. */
  function Settled(t: Task, succeeded: bool, doneAt: int, error: string): Task {
    if succeeded then t.(status := Completed, completedAt := Some(doneAt))
    else match Judge(t, doneAt)
      case Requeue(retryAt) => t.(status := Pending, scheduledAt := Some(retryAt), error := Some(error), lockedAt := None)
      case Bury => t.(status := DeadLetter, completedAt := Some(doneAt), error := Some(error))
      case Panic => t
  }

  function Claimed(t: Task, claimedAt: int): Task {
    t.(status := Running, lockedAt := Some(claimedAt), retryCount := t.retryCount + 1)
  }

  lemma SettledIsResolved(t: Task, succeeded: bool, claimedAt: int, doneAt: int, error: string)
    ensures Resolved(t, Settled(Claimed(t, claimedAt), succeeded, doneAt, error), succeeded, claimedAt, doneAt, error)
  {
  }
}
