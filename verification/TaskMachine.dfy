/**
 All interleavings of workers over the task table.  A worker is the loop of
 `run_worker`; its claim and its failure handling are two statements each, so
 other workers, reclaims, purges, admin retries and crashes may come between.
 */
module TaskMachine {
  import opened Wrappers
  import opened TaskTable

  datatype Worker = Worker(queue: string, index: nat)

  /**
   Where a worker is.  `at` is the clock value it read when it began the claim;
   it stored that value as `locked_at`.  A crashed worker is `Idle`.
   */
  datatype Phase =
    | Idle
    | Selected(task: TaskId, at: int)
    | Working(task: TaskId, at: int)
    | Failing(task: TaskId, at: int, verdict: Verdict, failedAt: int)

  datatype State = State(now: int, rows: Table, workers: map<Worker, Phase>, used: set<TaskId>)

  datatype Event =
    | Tick(now: int)
    | Enqueue(id: TaskId, queue: string, delaySecs: nat, maxRetries: nat, at: int, createdAt: int)
    | ClaimSelect(w: Worker, id: TaskId, at: int)
    | ClaimUpdate(w: Worker)
    | Complete(w: Worker, at: int)
    | FailSelect(w: Worker, at: int)
    | FailUpdate(w: Worker, error: string)
    | Crash(w: Worker)
    | Reclaim(only: Option<string>, cutoff: int)
    | Purge(cutoff: int)
    | Retry(id: TaskId)

  function PhaseOf(s: State, w: Worker): Phase {
    if w in s.workers then s.workers[w] else Idle
  }

  predicate Initial(s: State) {
    s.rows == map[] && s.workers == map[] && s.used == {}
  }

  /** Clock values are read before the statement that uses them, so they may lag behind `now`. */
  predicate Enabled(s: State, e: Event) {
    match e
    case Tick(t) => s.now <= t
    case Enqueue(id, _, _, maxRetries, at, createdAt) => id !in s.used && maxRetries < 0x1_0000_0000 && at <= s.now && createdAt <= s.now
    case ClaimSelect(w, id, at) => PhaseOf(s, w).Idle? && at <= s.now && IsNext(s.rows, w.queue, at, id)
    case ClaimUpdate(w) => PhaseOf(s, w).Selected?
    case Complete(w, at) => PhaseOf(s, w).Working? && PhaseOf(s, w).at <= at <= s.now
    case FailSelect(w, at) => PhaseOf(s, w).Working? && PhaseOf(s, w).at <= at <= s.now
    case FailUpdate(w, _) => PhaseOf(s, w).Failing?
    case Crash(w) => true
    case Reclaim(_, cutoff) => cutoff <= s.now
    case Purge(cutoff) => cutoff <= s.now
    case Retry(_) => true
  }

  function Apply(s: State, e: Event): State
    requires Enabled(s, e)
  {
    match e
    case Tick(t) => s.(now := t)
    case Enqueue(id, queue, delaySecs, maxRetries, at, createdAt) =>
      s.(rows := s.rows[id := NewTask(queue, delaySecs, maxRetries, at, createdAt)], used := s.used + {id})
    case ClaimSelect(w, id, at) => s.(workers := s.workers[w := Selected(id, at)])
    case ClaimUpdate(w) =>
      var p := PhaseOf(s, w);
      var won := p.task in s.rows && s.rows[p.task].status == Pending;
      s.(rows := ClaimRow(s.rows, p.task, p.at), workers := s.workers[w := if won then Working(p.task, p.at) else Idle])
    case Complete(w, at) =>
      s.(rows := CompleteRow(s.rows, PhaseOf(s, w).task, at), workers := s.workers[w := Idle])
    case FailSelect(w, at) =>
      var p := PhaseOf(s, w);
      var next := if p.task !in s.rows || Judge(s.rows[p.task], at).Panic? then Idle
                  else Failing(p.task, p.at, Judge(s.rows[p.task], at), at);
      s.(workers := s.workers[w := next])
    case FailUpdate(w, error) =>
      var p := PhaseOf(s, w);
      s.(rows := if p.verdict.Requeue? then RequeueRow(s.rows, p.task, p.verdict.retryAt, error)
                 else BuryRow(s.rows, p.task, p.failedAt, error),
         workers := s.workers[w := Idle])
    case Crash(w) => s.(workers := s.workers[w := Idle])
    case Reclaim(only, cutoff) => s.(rows := ReclaimRows(s.rows, only, cutoff))
    case Purge(cutoff) => s.(rows := PurgeRows(s.rows, cutoff))
    case Retry(id) => s.(rows := RetryRow(s.rows, id))
  }

  /** What the model leaves open: at any moment time may pass, workers crash, and tasks be reclaimed, purged or retried. */
  lemma AnythingCanHappen(s: State, w: Worker, id: TaskId, only: Option<string>, t: int)
    ensures Enabled(s, Crash(w)) && Enabled(s, Retry(id))
    ensures Enabled(s, Tick(t)) <==> s.now <= t
    ensures Enabled(s, Reclaim(only, t)) <==> t <= s.now
    ensures Enabled(s, Purge(t)) <==> t <= s.now
    ensures PhaseOf(s, w).Working? ==>
              && (Enabled(s, Complete(w, t)) <==> PhaseOf(s, w).at <= t <= s.now)
              && (Enabled(s, FailSelect(w, t)) <==> PhaseOf(s, w).at <= t <= s.now)
  {
  }

  /** A run: the states it visits and the events between them. */
  ghost predicate Run(tr: seq<State>, evs: seq<Event>) {
    && |tr| == |evs| + 1
    && Initial(tr[0])
    && forall i :: 0 <= i < |evs| ==> Steps(tr[i], evs[i], tr[i + 1])
  }

  ghost predicate Steps(s: State, e: Event, s': State) {
    Enabled(s, e) && s' == Apply(s, e)
  }

  /** A run can always be continued by an enabled event. */
  lemma Extend(tr: seq<State>, evs: seq<Event>, e: Event) returns (tr': seq<State>, evs': seq<Event>)
    requires Run(tr, evs) && Enabled(tr[|evs|], e)
    ensures evs' == evs + [e] && tr' == tr + [Apply(tr[|evs|], e)]
    ensures Run(tr', evs') && tr'[|evs'|] == Apply(tr[|evs|], e)
  {
    evs', tr' := evs + [e], tr + [Apply(tr[|evs|], e)];
    forall i | 0 <= i < |evs'|
      ensures Steps(tr'[i], evs'[i], tr'[i + 1])
    {
      if i < |evs| {
        assert Steps(tr[i], evs[i], tr[i + 1]);
      }
    }
  }

  /** A live holder: the worker has claimed the task and not yet resolved it. */
  predicate Holds(p: Phase, id: TaskId) {
    (p.Working? || p.Failing?) && p.task == id
  }

  function Holders(s: State, id: TaskId): set<Worker> {
    set w | w in s.workers && Holds(s.workers[w], id)
  }

  // ----- ids are never reused -----

  ghost predicate IdsUsed(s: State) {
    && s.rows.Keys <= s.used
    && forall w | w in s.workers && !s.workers[w].Idle? :: s.workers[w].task in s.used
  }

  lemma {:induction false} IdsUsedAlways(tr: seq<State>, evs: seq<Event>, n: nat)
    requires Run(tr, evs) && n <= |evs|
    ensures IdsUsed(tr[n])
  {
    if n > 0 {
      IdsUsedAlways(tr, evs, n - 1);
      assert Steps(tr[n - 1], evs[n - 1], tr[n]);
    }
  }

  lemma {:induction false} UsedGrows(tr: seq<State>, evs: seq<Event>, i: nat, j: nat)
    requires Run(tr, evs) && i <= j <= |evs|
    ensures tr[i].used <= tr[j].used
  {
    if i < j {
      UsedGrows(tr, evs, i, j - 1);
      assert Steps(tr[j - 1], evs[j - 1], tr[j]);
    }
  }

  // ----- no task is lost -----

  /** A running row has a lock time and a waiting one has none; a completed row is dated; no row is `Failed`. */
  predicate WellShaped(t: Task) {
    match t.status
    case Pending => t.lockedAt.None?
    case Running => t.lockedAt.Some?
    case Completed => t.completedAt.Some?
    case DeadLetter => t.completedAt.Some?
    case Failed => false
  }

  lemma ShapeStep(s: State, e: Event, s': State)
    requires Steps(s, e, s') && forall id | id in s.rows :: WellShaped(s.rows[id])
    ensures forall id | id in s'.rows :: WellShaped(s'.rows[id])
    ensures forall id | id in s.rows && id !in s'.rows :: s.rows[id].status == Completed
  {
  }

  lemma {:induction false} AlwaysWellShaped(tr: seq<State>, evs: seq<Event>, n: nat)
    requires Run(tr, evs) && n <= |evs|
    ensures forall id | id in tr[n].rows :: WellShaped(tr[n].rows[id])
  {
    if n > 0 {
      AlwaysWellShaped(tr, evs, n - 1);
      assert Steps(tr[n - 1], evs[n - 1], tr[n]);
      ShapeStep(tr[n - 1], evs[n - 1], tr[n]);
    }
  }

  /**
   In every run, whoever crashed when: a row leaves the table only as a completed
   one, and a running row is always brought back by a reclaim later than its lock.
   */
  lemma NoTaskIsLost(tr: seq<State>, evs: seq<Event>, n: nat, id: TaskId)
    requires Run(tr, evs) && n <= |evs| && id in tr[n].rows
    ensures n < |evs| && id !in tr[n + 1].rows ==> tr[n].rows[id].status == Completed
    ensures tr[n].rows[id].status == Running ==>
              && tr[n].rows[id].lockedAt.Some?
              && forall cutoff | cutoff > tr[n].rows[id].lockedAt.value ::
                   ReclaimRows(tr[n].rows, None, cutoff)[id] == tr[n].rows[id].(status := Pending, lockedAt := None)
  {
    AlwaysWellShaped(tr, evs, n);
    if n < |evs| {
      assert Steps(tr[n], evs[n], tr[n + 1]);
    }
  }
}
