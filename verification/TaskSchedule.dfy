/**
 When a claim comes before the scheduled retry.  The claim SELECT looks at
 `scheduled_at`, the UPDATE that follows it does not; over all runs, what was
 written in between decides.
 */
module TaskSchedule {
  import opened Wrappers
  import opened TaskTable
  import opened TaskMachine

  /** The claim clock `at` is before the row's scheduled retry. */
  predicate Early(t: Task, at: int) {
    t.scheduledAt.Some? && t.scheduledAt.value > at
  }

  /** The event writes a requeue of the task. */
  predicate Requeues(s: State, e: Event, id: TaskId) {
    e.FailUpdate? && PhaseOf(s, e.w).Failing? && PhaseOf(s, e.w).task == id && PhaseOf(s, e.w).verdict.Requeue?
  }

  /** The retry time that the events from `i` to `j` wrote last for the task, unless an admin retry came after it. */
  ghost function LastRequeue(tr: seq<State>, evs: seq<Event>, i: nat, j: nat, id: TaskId): Option<int>
    requires i <= j <= |evs| && |tr| == |evs| + 1
  {
    if i == j then None
    else if Requeues(tr[j - 1], evs[j - 1], id) then Some(PhaseOf(tr[j - 1], evs[j - 1].w).verdict.retryAt)
    else if evs[j - 1] == Retry(id) then None
    else LastRequeue(tr, evs, i, j - 1, id)
  }

  /** One event: a requeue dates the row, an admin retry clears the date, nothing else touches it. */
  lemma ScheduleStep(s: State, e: Event, s': State, id: TaskId)
    requires Steps(s, e, s') && id in s.used && id in s'.rows
    ensures id in s.rows
    ensures s'.rows[id].scheduledAt ==
            if Requeues(s, e, id) then Some(PhaseOf(s, e.w).verdict.retryAt)
            else if e == Retry(id) then None
            else s.rows[id].scheduledAt
  {
  }

  /** A row that was due at `at` is dated later than `at` exactly when a requeue did it. */
  lemma {:induction false} DatedLater(tr: seq<State>, evs: seq<Event>, i: nat, j: nat, id: TaskId, at: int)
    requires Run(tr, evs) && i <= j <= |evs| && id in tr[i].rows && id in tr[j].rows && !Early(tr[i].rows[id], at)
    ensures LastRequeue(tr, evs, i, j, id).Some? ==> tr[j].rows[id].scheduledAt == LastRequeue(tr, evs, i, j, id)
    ensures LastRequeue(tr, evs, i, j, id).None? ==> !Early(tr[j].rows[id], at)
  {
    if i < j {
      assert Steps(tr[j - 1], evs[j - 1], tr[j]);
      IdsUsedAlways(tr, evs, i);
      UsedGrows(tr, evs, i, j - 1);
      ScheduleStep(tr[j - 1], evs[j - 1], tr[j], id);
      DatedLater(tr, evs, i, j - 1, id, at);
    }
  }

  /** A worker between its two claim statements got there by a SELECT. */
  lemma {:induction false} SelectOf(tr: seq<State>, evs: seq<Event>, j: nat, w: Worker) returns (i: nat)
    requires Run(tr, evs) && j <= |evs| && PhaseOf(tr[j], w).Selected?
    ensures i < j && evs[i] == ClaimSelect(w, PhaseOf(tr[j], w).task, PhaseOf(tr[j], w).at)
    ensures forall k | i < k <= j :: PhaseOf(tr[k], w) == PhaseOf(tr[j], w)
  {
    assert j > 0;
    assert Steps(tr[j - 1], evs[j - 1], tr[j]);
    if PhaseOf(tr[j - 1], w) == PhaseOf(tr[j], w) {
      i := SelectOf(tr, evs, j - 1, w);
    } else {
      i := j - 1;
    }
  }

  /**
   In every run, a claim is early exactly when, between its SELECT and its
   UPDATE, a requeue to a later time than the claim's clock was written and no
   admin retry followed it.
   */
  lemma EarlyIffRequeuedBetween(tr: seq<State>, evs: seq<Event>, j: nat, w: Worker) returns (i: nat)
    requires Run(tr, evs) && j < |evs| && evs[j] == ClaimUpdate(w)
    requires PhaseOf(tr[j], w).Selected? ==> PhaseOf(tr[j], w).task in tr[j].rows
    ensures PhaseOf(tr[j], w).Selected?
    ensures var Selected(id, at) := PhaseOf(tr[j], w);
            && i < j && evs[i] == ClaimSelect(w, id, at)
            && (Early(tr[j].rows[id], at) <==>
                LastRequeue(tr, evs, i, j, id).Some? && LastRequeue(tr, evs, i, j, id).value > at)
  {
    assert Steps(tr[j], evs[j], tr[j + 1]);
    i := SelectOf(tr, evs, j, w);
    assert Steps(tr[i], evs[i], tr[i + 1]);
    DatedLater(tr, evs, i, j, PhaseOf(tr[j], w).task, PhaseOf(tr[j], w).at);
  }

  /**
   Early claims happen, in any queue and for any limit that allows a retry: a
   second worker selects the task before the first claims and fails it.
   */
  lemma StaleSelectSkipsBackoff(queue: string, maxRetries: nat) returns (tr: seq<State>, evs: seq<Event>)
    requires 2 <= maxRetries < 0x8000_0000
    ensures Run(tr, evs) && |evs| == 7
    ensures 0 in tr[6].rows && tr[6].rows[0].status == Pending && tr[6].rows[0].scheduledAt == Some(tr[6].now + 2)
    ensures 0 in tr[7].rows && tr[7].rows[0].status == Running && tr[7].now == tr[6].now
  {
    var v, w := Worker(queue, 0), Worker(queue, 1);
    tr, evs := BothSelected(v, w, maxRetries);
    tr, evs := Extend(tr, evs, ClaimUpdate(v));
    assert tr[4].workers == map[v := Working(0, 0), w := Selected(0, 0)];
    tr, evs := Extend(tr, evs, FailSelect(v, 0));
    assert Judge(tr[4].rows[0], 0) == Requeue(2) by { assert Pow2(1) == 2 * Pow2(0); }
    tr, evs := Extend(tr, evs, FailUpdate(v, "boom"));
    tr, evs := Extend(tr, evs, ClaimUpdate(w));
  }

  lemma BothSelected(v: Worker, w: Worker, maxRetries: nat) returns (tr: seq<State>, evs: seq<Event>)
    requires v != w && v.queue == w.queue && maxRetries < 0x8000_0000
    ensures Run(tr, evs) && |evs| == 3
    ensures tr[3] == State(0, map[0 := Task(v.queue, Pending, 0, maxRetries, None, None, 0, None, None)],
                           map[v := Selected(0, 0), w := Selected(0, 0)], {0})
  {
    tr, evs := [State(0, map[], map[], {})], [];
    tr, evs := Extend(tr, evs, Enqueue(0, v.queue, 0, maxRetries, 0, 0));
    assert tr[1] == State(0, map[0 := Task(v.queue, Pending, 0, maxRetries, None, None, 0, None, None)], map[], {0});
    tr, evs := Extend(tr, evs, ClaimSelect(v, 0, 0));
    tr, evs := Extend(tr, evs, ClaimSelect(w, 0, 0));
  }
}
