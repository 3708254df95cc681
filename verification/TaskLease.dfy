/**
 The lease discipline.  The claim is exclusive exactly as long as no reclaim or
 admin retry takes a task from a live holder; that holds if every live worker
 resolves its task within 300 s of the `locked_at` it stored.  Then a finished
 task also stays finished.  A late worker breaks both.
 */
module TaskLease {
  import opened Wrappers
  import opened TaskTable
  import opened TaskMachine
  import TaskBounds

  /** No live holder is more than 300 s past the lock time it stored. */
  ghost predicate Timely(s: State) {
    forall w | w in s.workers && (s.workers[w].Working? || s.workers[w].Failing?) :: s.now <= s.workers[w].at + 300
  }

  /** No admin retries, and reclaims use the 300 s timeout of `run_worker`. */
  predicate Disciplined(s: State, e: Event) {
    !e.Retry? && (e.Reclaim? ==> e.cutoff <= s.now - 300)
  }

  ghost predicate TimelyRun(tr: seq<State>, evs: seq<Event>) {
    && Run(tr, evs)
    && (forall i :: 0 <= i < |tr| ==> Timely(tr[i]))
    && (forall i :: 0 <= i < |evs| ==> Disciplined(tr[i], evs[i]))
  }

  /** Each live holder's row is running under exactly its lock, and it is the only holder. */
  ghost predicate Exclusive(s: State) {
    && (forall w | w in s.workers && (s.workers[w].Working? || s.workers[w].Failing?) ::
          s.workers[w].task in s.rows && s.rows[s.workers[w].task].status == Running
          && s.rows[s.workers[w].task].lockedAt == Some(s.workers[w].at))
    && (forall id, v, w | v in Holders(s, id) && w in Holders(s, id) :: v == w)
  }

  /** The event takes no task away from a live holder. */
  ghost predicate SparesHeld(s: State, e: Event) {
    forall id | id in s.rows && TaskBounds.Intervenes(s, e, id) :: Holders(s, id) == {}
  }

  /** While nothing is taken from a live holder, each holder's row stays running under its lock. */
  lemma RowsStayLocked(s: State, e: Event, s': State)
    requires Steps(s, e, s') && IdsUsed(s) && Exclusive(s) && SparesHeld(s, e)
    ensures forall w | w in s'.workers && (s'.workers[w].Working? || s'.workers[w].Failing?) ::
              s'.workers[w].task in s'.rows && s'.rows[s'.workers[w].task].status == Running
              && s'.rows[s'.workers[w].task].lockedAt == Some(s'.workers[w].at)
  {
    forall w | w in s'.workers && (s'.workers[w].Working? || s'.workers[w].Failing?)
      ensures s'.workers[w].task in s'.rows && s'.rows[s'.workers[w].task].status == Running
              && s'.rows[s'.workers[w].task].lockedAt == Some(s'.workers[w].at)
    {
      var id := s'.workers[w].task;
      if e.Complete? || e.FailUpdate? {
        // the writer held its own task, so it was not this one
        assert w in Holders(s, id);
        assert e.w in Holders(s, PhaseOf(s, e.w).task);
      } else if e.Reclaim? || e.Retry? {
        assert w in Holders(s, id);
      }
    }
  }

  /** Only a claim adds a holder, and a claimed row was pending, hence held by nobody. */
  lemma HoldersStayAlone(s: State, e: Event, s': State)
    requires Steps(s, e, s') && Exclusive(s)
    ensures forall id, v, w | v in Holders(s', id) && w in Holders(s', id) :: v == w
  {
    forall id, v, w | v in Holders(s', id) && w in Holders(s', id)
      ensures v == w
    {
      assert v in Holders(s, id) || (e.ClaimUpdate? && e.w == v);
      assert w in Holders(s, id) || (e.ClaimUpdate? && e.w == w);
    }
  }

  /** An event keeps the claims exclusive if and only if it takes no task away from a live holder. */
  lemma ExclusiveStep(s: State, e: Event, s': State)
    requires Steps(s, e, s') && IdsUsed(s) && Exclusive(s)
    ensures Exclusive(s') <==> SparesHeld(s, e)
  {
    if SparesHeld(s, e) {
      RowsStayLocked(s, e, s');
      HoldersStayAlone(s, e, s');
    } else {
      var id :| id in s.rows && TaskBounds.Intervenes(s, e, id) && Holders(s, id) != {};
      var w :| w in Holders(s, id);
      assert s'.workers[w].task == id && s'.rows[id].status == Pending;
    }
  }

  /** The exact condition, over every run: claims are exclusive all along if and only if no event takes a task from a live holder. */
  lemma {:induction false} ExclusiveIffSpared(tr: seq<State>, evs: seq<Event>, n: nat)
    requires Run(tr, evs) && n <= |evs|
    ensures (forall i | 0 <= i <= n :: Exclusive(tr[i])) <==> (forall i | 0 <= i < n :: SparesHeld(tr[i], evs[i]))
  {
    if n > 0 {
      ExclusiveIffSpared(tr, evs, n - 1);
      IdsUsedAlways(tr, evs, n - 1);
      assert Steps(tr[n - 1], evs[n - 1], tr[n]);
      if Exclusive(tr[n - 1]) { ExclusiveStep(tr[n - 1], evs[n - 1], tr[n]); }
    }
  }

  /** In time: a reclaim of all queues with the 300 s timeout takes nothing from a live holder if and only if every holder is timely. */
  lemma ReclaimSparesIffTimely(s: State)
    requires Exclusive(s)
    ensures SparesHeld(s, Reclaim(None, s.now - 300)) <==> Timely(s)
  {
    var e := Reclaim(None, s.now - 300);
    if SparesHeld(s, e) {
      forall w | w in s.workers && (s.workers[w].Working? || s.workers[w].Failing?)
        ensures s.now <= s.workers[w].at + 300
      {
        assert w in Holders(s, s.workers[w].task);
      }
    } else {
      var id :| id in s.rows && TaskBounds.Intervenes(s, e, id) && Holders(s, id) != {};
      var w :| w in Holders(s, id);
      assert s.workers[w].at < s.now - 300;
    }
  }

  lemma TimelySpares(s: State, e: Event)
    requires Exclusive(s) && Timely(s) && Disciplined(s, e)
    ensures SparesHeld(s, e)
  {
    assert forall id, w | id in s.rows && w in Holders(s, id) :: s.rows[id].lockedAt == Some(s.workers[w].at);
    assert forall id, w | id in s.rows && w in Holders(s, id) :: !TaskBounds.Intervenes(s, e, id);
  }

  lemma {:induction false} AlwaysExclusive(tr: seq<State>, evs: seq<Event>, n: nat)
    requires TimelyRun(tr, evs) && n <= |evs|
    ensures Exclusive(tr[n])
  {
    if n > 0 {
      AlwaysExclusive(tr, evs, n - 1);
      IdsUsedAlways(tr, evs, n - 1);
      assert Steps(tr[n - 1], evs[n - 1], tr[n]);
      TimelySpares(tr[n - 1], evs[n - 1]);
      ExclusiveStep(tr[n - 1], evs[n - 1], tr[n]);
    }
  }

  predicate Finished(t: Task) {
    t.status == Completed || t.status == DeadLetter
  }

  /** While claims are exclusive, a finished row changes only by an admin retry, and only a completed one can vanish. */
  lemma FinishedStep(s: State, e: Event, s': State, id: TaskId)
    requires Steps(s, e, s') && Exclusive(s) && id in s.used
    requires id in s.rows && Finished(s.rows[id]) && e != Retry(id)
    ensures id in s'.rows ==> s'.rows[id] == s.rows[id]
    ensures id !in s'.rows ==> s.rows[id].status == Completed
  {
    if e.Complete? || e.FailUpdate? { assert e.w in Holders(s, PhaseOf(s, e.w).task); }
  }

  /**
   If no event takes a task from a live holder, a finished row never changes
   again but by an admin retry; the only other thing that can happen to it is the
   purge of a completed one.
   */
  lemma {:induction false} FinishedIsFinal(tr: seq<State>, evs: seq<Event>, i: nat, j: nat, id: TaskId)
    requires Run(tr, evs) && i <= j <= |evs| && (forall k | 0 <= k < j :: SparesHeld(tr[k], evs[k]))
    requires id in tr[i].rows && Finished(tr[i].rows[id]) && forall k | i <= k < j :: evs[k] != Retry(id)
    ensures id in tr[j].rows ==> tr[j].rows[id] == tr[i].rows[id]
    ensures id !in tr[j].rows ==> tr[i].rows[id].status == Completed
  {
    if i < j {
      FinishedIsFinal(tr, evs, i, j - 1, id);
      ExclusiveIffSpared(tr, evs, j - 1);
      UsedGrows(tr, evs, i, j - 1);
      IdsUsedAlways(tr, evs, i);
      assert Steps(tr[j - 1], evs[j - 1], tr[j]) && Exclusive(tr[j - 1]);
      if id in tr[j - 1].rows { FinishedStep(tr[j - 1], evs[j - 1], tr[j], id); }
    }
  }

  /** The lease theorem, in one statement. */
  lemma LeaseIsSafe(tr: seq<State>, evs: seq<Event>, n: nat, id: TaskId)
    requires TimelyRun(tr, evs) && n <= |evs|
    ensures |Holders(tr[n], id)| <= 1
    ensures Holders(tr[n], id) != {} ==> id in tr[n].rows && tr[n].rows[id].status == Running
    ensures forall j | n <= j <= |evs| && id in tr[n].rows && tr[n].rows[id].status in {Completed, DeadLetter} && id in tr[j].rows ::
              tr[j].rows[id] == tr[n].rows[id]
  {
    AlwaysExclusive(tr, evs, n);
    var h := Holders(tr[n], id);
    if w :| w in h {
      assert h == {w};
    }
    forall j | n <= j <= |evs| && id in tr[n].rows && Finished(tr[n].rows[id]) && id in tr[j].rows
      ensures tr[j].rows[id] == tr[n].rows[id]
    {
      forall k | 0 <= k < j
        ensures SparesHeld(tr[k], evs[k])
      {
        AlwaysExclusive(tr, evs, k);
        TimelySpares(tr[k], evs[k]);
      }
      FinishedIsFinal(tr, evs, n, j, id);
    }
  }

  // ----- one late worker -----

  /** The events of a run in which one worker is `late` seconds old when the reclaim comes, and a second one claims its task. */
  function LateEvents(queue: string, maxRetries: nat, late: int): seq<Event> {
    [Enqueue(0, queue, 0, maxRetries, 0, 0), ClaimSelect(Worker(queue, 0), 0, 0), ClaimUpdate(Worker(queue, 0)), Tick(late),
     Reclaim(None, late - 300), ClaimSelect(Worker(queue, 1), 0, late), ClaimUpdate(Worker(queue, 1))]
  }

  function LateTask(queue: string, maxRetries: nat, status: Status, attempts: int, lockedAt: Option<int>): Task {
    Task(queue, status, attempts, maxRetries, None, lockedAt, 0, None, None)
  }

  lemma FirstHolder(queue: string, maxRetries: nat) returns (tr: seq<State>, evs: seq<Event>)
    requires maxRetries < 0x8000_0000
    ensures evs == LateEvents(queue, maxRetries, 0)[..3]
    ensures Run(tr, evs)
    ensures tr[3] == State(0, map[0 := LateTask(queue, maxRetries, Running, 1, Some(0))], map[Worker(queue, 0) := Working(0, 0)], {0})
  {
    tr, evs := [State(0, map[], map[], {})], [];
    tr, evs := Extend(tr, evs, Enqueue(0, queue, 0, maxRetries, 0, 0));
    assert tr[1] == State(0, map[0 := LateTask(queue, maxRetries, Pending, 0, None)], map[], {0});
    tr, evs := Extend(tr, evs, ClaimSelect(Worker(queue, 0), 0, 0));
    tr, evs := Extend(tr, evs, ClaimUpdate(Worker(queue, 0)));
  }

  lemma SecondHolder(queue: string, maxRetries: nat, late: int) returns (tr: seq<State>, evs: seq<Event>)
    requires maxRetries < 0x8000_0000 && late > 300
    ensures evs == LateEvents(queue, maxRetries, late)
    ensures Run(tr, evs)
    ensures tr[7] == State(late, map[0 := LateTask(queue, maxRetries, Running, 2, Some(late))],
                           map[Worker(queue, 0) := Working(0, 0), Worker(queue, 1) := Working(0, late)], {0})
  {
    tr, evs := FirstHolder(queue, maxRetries);
    tr, evs := Extend(tr, evs, Tick(late));
    tr, evs := Extend(tr, evs, Reclaim(None, late - 300));
    assert tr[5] == State(late, map[0 := LateTask(queue, maxRetries, Pending, 1, None)], map[Worker(queue, 0) := Working(0, 0)], {0});
    tr, evs := Extend(tr, evs, ClaimSelect(Worker(queue, 1), 0, late));
    tr, evs := Extend(tr, evs, ClaimUpdate(Worker(queue, 1)));
  }

  /**
   In every queue, for every lateness above 300 s and every limit that lets the
   second failure requeue: the task has two live holders after one reclaim (the
   bound of `TaskBounds` is attained), and once completed goes back to pending.
   */
  lemma LateHolderBreaksLease(queue: string, maxRetries: nat, late: int) returns (tr: seq<State>, evs: seq<Event>)
    requires 2 < maxRetries < 0x8000_0000 && late > 300
    ensures Run(tr, evs) && |evs| == 10 && tr[7].now == late
    ensures |Holders(tr[7], 0)| == 2 && TaskBounds.Interventions(tr, evs, 7, 0) == 1
    ensures 0 in tr[8].rows && tr[8].rows[0].status == Completed
    ensures 0 in tr[10].rows && tr[10].rows[0].status == Pending
  {
    var early, later := Worker(queue, 0), Worker(queue, 1);
    tr, evs := SecondHolder(queue, maxRetries, late);
    assert Holders(tr[7], 0) == {early, later};
    OneIntervention(tr, evs, queue, maxRetries, late);
    tr, evs := UndoneCompletion(tr, evs, queue, maxRetries, late);
  }

  /** The late worker completes the task; the other fails and requeues it. */
  lemma UndoneCompletion(tr: seq<State>, evs: seq<Event>, queue: string, maxRetries: nat, late: int)
    returns (tr': seq<State>, evs': seq<Event>)
    requires 2 < maxRetries < 0x8000_0000 && late > 300 && Run(tr, evs) && |evs| == 7
    requires tr[7] == State(late, map[0 := LateTask(queue, maxRetries, Running, 2, Some(late))],
                            map[Worker(queue, 0) := Working(0, 0), Worker(queue, 1) := Working(0, late)], {0})
    requires TaskBounds.Interventions(tr, evs, 7, 0) == 1
    ensures Run(tr', evs') && |evs'| == 10 && tr'[7] == tr[7]
    ensures TaskBounds.Interventions(tr', evs', 7, 0) == 1
    ensures 0 in tr'[8].rows && tr'[8].rows[0].status == Completed
    ensures 0 in tr'[10].rows && tr'[10].rows[0].status == Pending
  {
    var early, later := Worker(queue, 0), Worker(queue, 1);
    tr', evs' := Extend(tr, evs, Complete(early, late));
    tr', evs' := Extend(tr', evs', FailSelect(later, late));
    tr', evs' := Extend(tr', evs', FailUpdate(later, "boom"));
    SamePrefix(tr, evs, tr', evs', 7);
  }

  lemma {:induction false} SamePrefix(tr: seq<State>, evs: seq<Event>, tr': seq<State>, evs': seq<Event>, n: nat)
    requires |tr| == |evs| + 1 && |tr'| == |evs'| + 1 && n <= |evs| && tr <= tr' && evs <= evs'
    ensures TaskBounds.Interventions(tr', evs', n, 0) == TaskBounds.Interventions(tr, evs, n, 0)
  {
    if n > 0 { SamePrefix(tr, evs, tr', evs', n - 1); }
  }

  lemma OneIntervention(tr: seq<State>, evs: seq<Event>, queue: string, maxRetries: nat, late: int)
    requires Run(tr, evs) && evs == LateEvents(queue, maxRetries, late) && 0 in tr[7].rows && |Holders(tr[7], 0)| == 2
    ensures TaskBounds.Interventions(tr, evs, 7, 0) == 1
  {
    TaskBounds.HoldersAndAttempts(tr, evs, 7, 0);
    assert TaskBounds.Interventions(tr, evs, 1, 0) == TaskBounds.Interventions(tr, evs, 0, 0) == 0;
    assert TaskBounds.Interventions(tr, evs, 2, 0) == 0;
    assert TaskBounds.Interventions(tr, evs, 4, 0) == 0;
    assert TaskBounds.Interventions(tr, evs, 5, 0) <= 1;
    assert TaskBounds.Interventions(tr, evs, 7, 0) == TaskBounds.Interventions(tr, evs, 5, 0);
  }
}
