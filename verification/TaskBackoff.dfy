/**
 The retry schedule of a task whose handler always fails, served by one worker
 per queue: how many attempts it gets, and how far apart they are.
 */
module TaskBackoff {
  import opened Wrappers
  import opened TaskTable
  import opened TaskMachine
  import TaskBounds

  /** One worker per queue; for this task: no reclaim, no admin retry, no crash, and the handler never succeeds. */
  predicate HandlerFails(s: State, e: Event, id: TaskId) {
    && !TaskBounds.Intervenes(s, e, id)
    && (e.ClaimSelect? ==> e.w.index == 0)
    && (e.Complete? && Enabled(s, e) ==> PhaseOf(s, e.w).task != id)
    && (e.Crash? ==> PhaseOf(s, e.w).Idle? || PhaseOf(s, e.w).task != id)
  }

  ghost predicate FailingRun(tr: seq<State>, evs: seq<Event>, id: TaskId) {
    Run(tr, evs) && forall i :: 0 <= i < |evs| ==> HandlerFails(tr[i], evs[i], id)
  }

  // ----- the history of one task -----

  predicate Claims(s: State, e: Event, id: TaskId) {
    e.ClaimUpdate? && PhaseOf(s, e.w).Selected? && PhaseOf(s, e.w).task == id && id in s.rows && s.rows[id].status == Pending
  }

  predicate Fails(s: State, e: Event, id: TaskId) {
    e.FailUpdate? && PhaseOf(s, e.w).Failing? && PhaseOf(s, e.w).task == id && id in s.rows
  }

  /** The times of the claims of the task, in order. */
  ghost function ClaimTimes(tr: seq<State>, evs: seq<Event>, n: nat, id: TaskId): seq<int>
    requires n <= |evs| && |tr| == |evs| + 1
  {
    if n == 0 then []
    else ClaimTimes(tr, evs, n - 1, id) + if Claims(tr[n - 1], evs[n - 1], id) then [PhaseOf(tr[n - 1], evs[n - 1].w).at] else []
  }

  /** The times of the recorded failures of the task, in order. */
  ghost function FailTimes(tr: seq<State>, evs: seq<Event>, n: nat, id: TaskId): seq<int>
    requires n <= |evs| && |tr| == |evs| + 1
  {
    if n == 0 then []
    else FailTimes(tr, evs, n - 1, id) + if Fails(tr[n - 1], evs[n - 1], id) then [PhaseOf(tr[n - 1], evs[n - 1].w).failedAt] else []
  }

  // ----- the invariant -----

  /** Claims and failures alternate, and the claim after the k-th failure waits at least 2^k seconds. */
  ghost predicate Spaced(cs: seq<int>, fs: seq<int>) {
    && |fs| <= |cs| <= |fs| + 1
    && (forall k :: 0 <= k < |fs| ==> cs[k] <= fs[k])
    && (forall k :: 0 < k < |cs| ==> cs[k] >= fs[k - 1] + Pow2(k))
  }

  /** Waiting: as many failures as claims, and the next attempt scheduled after the backoff. */
  ghost predicate Waiting(t: Task, p: Phase, id: TaskId, cs: seq<int>, fs: seq<int>) {
    && |fs| == |cs| <= MAX_BACKOFF_EXP && !Holds(p, id)
    && (|cs| > 0 ==> |cs| < t.maxRetries && t.scheduledAt == Some(fs[|cs| - 1] + Pow2(|cs|)))
    && (p.Selected? && p.task == id ==> Eligible(t, t.queue, p.at))
  }

  /** Being worked on by the queue's worker, unless that has panicked on an impossible backoff. */
  ghost predicate Busy(t: Task, p: Phase, id: TaskId, cs: seq<int>, fs: seq<int>) {
    && |cs| == |fs| + 1 <= MAX_BACKOFF_EXP + 1 && (|cs| > 1 ==> |cs| <= t.maxRetries)
    && (Holds(p, id) ==> p.at == cs[|cs| - 1])
    && (Holds(p, id) && p.Failing? ==> p.at <= p.failedAt && p.verdict == Judge(t, p.failedAt) && !p.verdict.Panic?)
    && (p.Selected? ==> p.task != id)
    && (!Holds(p, id) ==> |cs| == MAX_BACKOFF_EXP + 1 < t.maxRetries)
  }

  ghost predicate Dead(t: Task, p: Phase, id: TaskId, cs: seq<int>, fs: seq<int>) {
    |fs| == |cs| == Max(1, t.maxRetries) <= MAX_BACKOFF_EXP + 1 && (p.Idle? || p.task != id)
  }

  /** What the row and its worker look like between events. */
  ghost predicate Tracks(s: State, id: TaskId, cs: seq<int>, fs: seq<int>)
    requires id in s.rows
  {
    var t := s.rows[id];
    var p := PhaseOf(s, Worker(t.queue, 0));
    && t.retryCount == |cs|
    && Spaced(cs, fs)
    && (forall w | w in s.workers && !s.workers[w].Idle? && s.workers[w].task == id :: w == Worker(t.queue, 0))
    && (match t.status
        case Pending => Waiting(t, p, id, cs, fs)
        case Running => Busy(t, p, id, cs, fs)
        case DeadLetter => Dead(t, p, id, cs, fs)
        case _ => false)
  }

  /** The worker that serves the task's queue, and whether the event moves it on this task. */
  predicate Concerns(s: State, e: Event, id: TaskId) {
    match e
    case ClaimSelect(_, i, _) => i == id
    case ClaimUpdate(w) => PhaseOf(s, w).Selected? && PhaseOf(s, w).task == id
    case FailSelect(w, _) => PhaseOf(s, w).Working? && PhaseOf(s, w).task == id
    case FailUpdate(w, _) => PhaseOf(s, w).Failing? && PhaseOf(s, w).task == id
    case _ => false
  }

  lemma ElsewhereStep(s: State, e: Event, s': State, id: TaskId, cs: seq<int>, fs: seq<int>)
    requires Steps(s, e, s') && IdsUsed(s) && HandlerFails(s, e, id) && !Concerns(s, e, id)
    requires id in s.rows && Tracks(s, id, cs, fs)
    ensures id in s'.rows && Tracks(s', id, cs, fs)
  {
    assert s'.rows[id] == s.rows[id];
    var p, p' := PhaseOf(s, Worker(s.rows[id].queue, 0)), PhaseOf(s', Worker(s.rows[id].queue, 0));
    assert p' == p || ((p.Idle? || p.task != id) && (p'.Idle? || p'.task != id));
  }

  lemma SelectStep(s: State, e: Event, s': State, id: TaskId, cs: seq<int>, fs: seq<int>)
    requires Steps(s, e, s') && HandlerFails(s, e, id) && Concerns(s, e, id) && e.ClaimSelect?
    requires id in s.rows && Tracks(s, id, cs, fs)
    ensures id in s'.rows && Tracks(s', id, cs, fs)
  {
    assert e.w == Worker(s.rows[id].queue, 0);
  }

  /** The claim comes no earlier than the scheduled retry. */
  lemma ClaimStep(s: State, e: Event, s': State, id: TaskId, cs: seq<int>, fs: seq<int>)
    requires Steps(s, e, s') && HandlerFails(s, e, id) && Concerns(s, e, id) && e.ClaimUpdate?
    requires id in s.rows && Tracks(s, id, cs, fs)
    ensures Claims(s, e, id)
    ensures id in s'.rows && Tracks(s', id, cs + [PhaseOf(s, e.w).at], fs)
  {
    var t := s.rows[id];
    assert e.w == Worker(t.queue, 0) && t.status == Pending;
    var at := PhaseOf(s, e.w).at;
    assert |cs| > 0 ==> at >= fs[|cs| - 1] + Pow2(|cs|);
    assert Spaced(cs + [at], fs);
  }

  lemma DecideStep(s: State, e: Event, s': State, id: TaskId, cs: seq<int>, fs: seq<int>)
    requires Steps(s, e, s') && HandlerFails(s, e, id) && Concerns(s, e, id) && e.FailSelect?
    requires id in s.rows && Tracks(s, id, cs, fs)
    ensures id in s'.rows && Tracks(s', id, cs, fs)
  {
    assert e.w == Worker(s.rows[id].queue, 0) && s.rows[id].status == Running;
  }

  lemma OneMoreFailure(cs: seq<int>, fs: seq<int>, t: int)
    requires Spaced(cs, fs) && |cs| == |fs| + 1 && cs[|fs|] <= t
    ensures Spaced(cs, fs + [t])
  {
  }

  /** Recording a failure on the row: back to waiting, or dead. */
  lemma Recorded(t: Task, p: Phase, id: TaskId, cs: seq<int>, fs: seq<int>, error: string)
    requires t.retryCount == |cs| && Spaced(cs, fs) && Busy(t, p, id, cs, fs) && Holds(p, id) && p.Failing?
    ensures Spaced(cs, fs + [p.failedAt])
    ensures p.verdict.Requeue? ==>
              Waiting(t.(status := Pending, scheduledAt := Some(p.verdict.retryAt), error := Some(error), lockedAt := None),
                      Idle, id, cs, fs + [p.failedAt])
    ensures !p.verdict.Requeue? ==>
              Dead(t.(status := DeadLetter, completedAt := Some(p.failedAt), error := Some(error)), Idle, id, cs, fs + [p.failedAt])
  {
    OneMoreFailure(cs, fs, p.failedAt);
  }

  lemma RecordStep(s: State, e: Event, s': State, id: TaskId, cs: seq<int>, fs: seq<int>)
    requires Steps(s, e, s') && HandlerFails(s, e, id) && Concerns(s, e, id) && e.FailUpdate?
    requires id in s.rows && Tracks(s, id, cs, fs)
    ensures Fails(s, e, id)
    ensures id in s'.rows && Tracks(s', id, cs, fs + [PhaseOf(s, e.w).failedAt])
  {
    var t, p := s.rows[id], PhaseOf(s, e.w);
    assert e.w == Worker(t.queue, 0) && t.status == Running;
    Recorded(t, p, id, cs, fs, e.error);
    assert s'.workers == s.workers[e.w := Idle];
  }

  lemma TracksStep(s: State, e: Event, s': State, id: TaskId, cs: seq<int>, fs: seq<int>)
    requires Steps(s, e, s') && IdsUsed(s) && HandlerFails(s, e, id)
    requires id in s.rows && Tracks(s, id, cs, fs)
    ensures id in s'.rows
    ensures Tracks(s', id, cs + (if Claims(s, e, id) then [PhaseOf(s, e.w).at] else []),
                   fs + if Fails(s, e, id) then [PhaseOf(s, e.w).failedAt] else [])
  {
    assert cs + [] == cs && fs + [] == fs;
    if !Concerns(s, e, id) {
      ElsewhereStep(s, e, s', id, cs, fs);
    } else {
      match e
      case ClaimSelect(_, _, _) => SelectStep(s, e, s', id, cs, fs);
      case ClaimUpdate(_) => ClaimStep(s, e, s', id, cs, fs);
      case FailSelect(_, _) => DecideStep(s, e, s', id, cs, fs);
      case FailUpdate(_, _) => RecordStep(s, e, s', id, cs, fs);
    }
  }

  lemma {:induction false} Unborn(tr: seq<State>, evs: seq<Event>, n: nat, id: TaskId)
    requires Run(tr, evs) && n <= |evs| && id !in tr[n].used
    ensures ClaimTimes(tr, evs, n, id) == [] && FailTimes(tr, evs, n, id) == []
  {
    if n > 0 {
      assert Steps(tr[n - 1], evs[n - 1], tr[n]);
      IdsUsedAlways(tr, evs, n - 1);
      Unborn(tr, evs, n - 1, id);
    }
  }

  lemma {:induction false} AlwaysTracks(tr: seq<State>, evs: seq<Event>, n: nat, id: TaskId)
    requires FailingRun(tr, evs, id) && n <= |evs|
    ensures id in tr[n].used ==> id in tr[n].rows && Tracks(tr[n], id, ClaimTimes(tr, evs, n, id), FailTimes(tr, evs, n, id))
  {
    if n > 0 {
      var s, e := tr[n - 1], evs[n - 1];
      AlwaysTracks(tr, evs, n - 1, id);
      IdsUsedAlways(tr, evs, n - 1);
      assert Steps(s, e, tr[n]);
      if id in s.used {
        TracksStep(s, e, tr[n], id, ClaimTimes(tr, evs, n - 1, id), FailTimes(tr, evs, n - 1, id));
      } else {
        Unborn(tr, evs, n - 1, id);
      }
    }
  }

  // ----- the theorems -----

  /** Adding up the gaps: the k-th failure is at least 2^k - 2 seconds after the first. */
  lemma {:induction false} GapsAdd(cs: seq<int>, fs: seq<int>, k: nat)
    requires Spaced(cs, fs) && 0 < k <= |fs|
    ensures fs[k - 1] >= fs[0] + Pow2(k) - 2
  {
    if k > 1 {
      GapsAdd(cs, fs, k - 1);
      assert Pow2(k) == 2 * Pow2(k - 1);
    }
  }

  lemma LastClaim(cs: seq<int>, fs: seq<int>)
    requires Spaced(cs, fs) && 2 <= |cs|
    ensures cs[|cs| - 1] >= fs[0] + Pow2(|cs|) - 2
  {
    GapsAdd(cs, fs, |cs| - 1);
    assert Pow2(|cs|) == 2 * Pow2(|cs| - 1);
  }

  /**
   At most m = max(1, max_retries) attempts; after the m-th failure, and only
   then, the task is dead-lettered; consecutive attempts keep the backoff, so
   the last of m >= 2 attempts is at least 2^m - 2 seconds after the first failure.
   */
  ghost predicate OnSchedule(t: Task, cs: seq<int>, fs: seq<int>) {
    var m := Max(1, t.maxRetries);
    && |cs| == t.retryCount <= m
    && Spaced(cs, fs)
    && (t.status == DeadLetter <==> |fs| == m)
    && (2 <= |cs| == m ==> cs[m - 1] >= fs[0] + Pow2(m) - 2)
  }

  lemma ExactlyMaxAttempts(tr: seq<State>, evs: seq<Event>, n: nat, id: TaskId)
    requires FailingRun(tr, evs, id) && n <= |evs| && id in tr[n].used
    ensures id in tr[n].rows
    ensures OnSchedule(tr[n].rows[id], ClaimTimes(tr, evs, n, id), FailTimes(tr, evs, n, id))
  {
    AlwaysTracks(tr, evs, n, id);
    TrackedAttempts(tr[n], id, ClaimTimes(tr, evs, n, id), FailTimes(tr, evs, n, id));
  }

  lemma TrackedAttempts(s: State, id: TaskId, cs: seq<int>, fs: seq<int>)
    requires id in s.rows && Tracks(s, id, cs, fs)
    ensures OnSchedule(s.rows[id], cs, fs)
  {
    if 2 <= |cs| { LastClaim(cs, fs); }
  }

  /**
   When the limit lets the backoff exponent reach 43, the delay cannot be
   represented: the 43rd failure panics the worker and the task is never dead-lettered.
   */
  lemma TooManyRetriesNeverDeadLetter(tr: seq<State>, evs: seq<Event>, n: nat, id: TaskId)
    requires FailingRun(tr, evs, id) && n <= |evs| && id in tr[n].used
    ensures id in tr[n].rows
    ensures tr[n].rows[id].maxRetries > 43 ==>
              tr[n].rows[id].status != DeadLetter && |FailTimes(tr, evs, n, id)| <= 42
  {
    AlwaysTracks(tr, evs, n, id);
  }

  /** The other half: only such a task is ever left running without a holder, and only after its 43rd claim. */
  lemma AbandonedOnlyByPanic(tr: seq<State>, evs: seq<Event>, n: nat, id: TaskId)
    requires FailingRun(tr, evs, id) && n <= |evs| && id in tr[n].used
    ensures id in tr[n].rows
    ensures tr[n].rows[id].status == Running && Holders(tr[n], id) == {} ==>
              |ClaimTimes(tr, evs, n, id)| == 43 < tr[n].rows[id].maxRetries
  {
    AlwaysTracks(tr, evs, n, id);
    var w := Worker(tr[n].rows[id].queue, 0);
    if Holds(PhaseOf(tr[n], w), id) { assert w in Holders(tr[n], id); }
  }

  /** A failure goes unrecorded exactly when it is the 43rd and the limit would allow another attempt. */
  lemma UnrecordedIffPanic(tr: seq<State>, evs: seq<Event>, n: nat, w: Worker, at: int, id: TaskId)
    requires FailingRun(tr, evs, id) && n < |evs| && evs[n] == FailSelect(w, at)
    requires PhaseOf(tr[n], w).Working? && PhaseOf(tr[n], w).task == id
    ensures id in tr[n].rows
    ensures PhaseOf(tr[n + 1], w).Idle? <==> |ClaimTimes(tr, evs, n, id)| == 43 < tr[n].rows[id].maxRetries
  {
    IdsUsedAlways(tr, evs, n);
    AlwaysTracks(tr, evs, n, id);
    assert Steps(tr[n], evs[n], tr[n + 1]);
    assert w == Worker(tr[n].rows[id].queue, 0);
  }

  // ----- both ends are reached -----

  /** One task, waiting for its next attempt after `k` failures, and no busy worker. */
  ghost predicate FailedTimes(s: State, queue: string, maxRetries: int, k: nat) {
    && s.used == {0} && s.rows.Keys == {0}
    && s.rows[0].queue == queue && s.rows[0].status == Pending && s.rows[0].retryCount == k && s.rows[0].maxRetries == maxRetries
    && (forall w | w in s.workers :: s.workers[w].Idle?)
  }

  /** It has been claimed once more and its failure judged. */
  ghost predicate Judged(s: State, queue: string, maxRetries: int, k: nat) {
    var w := Worker(queue, 0);
    && s.used == {0} && s.rows.Keys == {0} && w in s.workers
    && s.rows[0].queue == queue && s.rows[0].status == Running && s.rows[0].retryCount == k && s.rows[0].maxRetries == maxRetries
    && (forall v | v in s.workers && v != w :: s.workers[v].Idle?)
    && s.workers[w] == var v := Judge(s.rows[0], s.now); if v.Panic? then Idle else Failing(0, s.now, v, s.now)
  }

  lemma ExtendFailing(tr: seq<State>, evs: seq<Event>, e: Event) returns (tr': seq<State>, evs': seq<Event>)
    requires FailingRun(tr, evs, 0) && Enabled(tr[|evs|], e) && HandlerFails(tr[|evs|], e, 0)
    ensures FailingRun(tr', evs', 0) && tr'[|evs'|] == Apply(tr[|evs|], e)
  {
    tr', evs' := Extend(tr, evs, e);
  }

  lemma Enqueued(queue: string, maxRetries: nat) returns (tr: seq<State>, evs: seq<Event>)
    requires maxRetries < 0x8000_0000
    ensures FailingRun(tr, evs, 0) && FailedTimes(tr[|evs|], queue, maxRetries, 0)
  {
    tr, evs := [State(0, map[], map[], {})], [];
    tr, evs := ExtendFailing(tr, evs, Enqueue(0, queue, 0, maxRetries, 0, 0));
  }

  /** Wait until the task is due, claim it and let the handler fail. */
  lemma OneMoreAttempt(tr: seq<State>, evs: seq<Event>, queue: string, maxRetries: int, k: nat) returns (tr': seq<State>, evs': seq<Event>)
    requires FailingRun(tr, evs, 0) && FailedTimes(tr[|evs|], queue, maxRetries, k)
    ensures FailingRun(tr', evs', 0) && Judged(tr'[|evs'|], queue, maxRetries, k + 1)
  {
    var w, row := Worker(queue, 0), tr[|evs|].rows[0];
    var now := Max(tr[|evs|].now, if row.scheduledAt.Some? then row.scheduledAt.value else 0);
    tr', evs' := ExtendFailing(tr, evs, Tick(now));
    tr', evs' := ExtendFailing(tr', evs', ClaimSelect(w, 0, now));
    tr', evs' := ExtendFailing(tr', evs', ClaimUpdate(w));
    tr', evs' := ExtendFailing(tr', evs', FailSelect(w, now));
  }

  lemma {:induction false} FailRepeatedly(queue: string, maxRetries: nat, k: nat) returns (tr: seq<State>, evs: seq<Event>)
    requires maxRetries < 0x8000_0000 && k <= 42 && (k == 0 || k < maxRetries)
    ensures FailingRun(tr, evs, 0) && FailedTimes(tr[|evs|], queue, maxRetries, k)
  {
    if k == 0 {
      tr, evs := Enqueued(queue, maxRetries);
    } else {
      tr, evs := FailRepeatedly(queue, maxRetries, k - 1);
      tr, evs := OneMoreAttempt(tr, evs, queue, maxRetries, k - 1);
      tr, evs := ExtendFailing(tr, evs, FailUpdate(Worker(queue, 0), "boom"));
    }
  }

  /** For every limit above 43 a failing task can be abandoned: running, and nobody's. */
  lemma PanicAbandons(queue: string, maxRetries: nat) returns (tr: seq<State>, evs: seq<Event>)
    requires 43 < maxRetries < 0x8000_0000
    ensures FailingRun(tr, evs, 0) && 0 in tr[|evs|].rows && tr[|evs|].rows[0].maxRetries == maxRetries
    ensures tr[|evs|].rows[0].status == Running && Holders(tr[|evs|], 0) == {}
  {
    tr, evs := FailRepeatedly(queue, maxRetries, 42);
    tr, evs := OneMoreAttempt(tr, evs, queue, maxRetries, 42);
  }

  /** For every limit up to 43 it can be dead-lettered, with as many attempts as the limit allows. */
  lemma DeadLetterReached(queue: string, maxRetries: nat) returns (tr: seq<State>, evs: seq<Event>)
    requires maxRetries <= 43
    ensures FailingRun(tr, evs, 0) && 0 in tr[|evs|].rows && tr[|evs|].rows[0].maxRetries == maxRetries
    ensures tr[|evs|].rows[0].status == DeadLetter && tr[|evs|].rows[0].retryCount == Max(1, maxRetries)
  {
    var k := Max(1, maxRetries) - 1;
    tr, evs := FailRepeatedly(queue, maxRetries, k);
    tr, evs := OneMoreAttempt(tr, evs, queue, maxRetries, k);
    tr, evs := ExtendFailing(tr, evs, FailUpdate(Worker(queue, 0), "boom"));
  }
}
