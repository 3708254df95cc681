/**
 What survives every interleaving, however late a worker is: each reclaim (or
 admin retry) lets at most one more live holder and one more attempt in.
 */
module TaskBounds {
  import opened Wrappers
  import opened TaskTable
  import opened TaskMachine

  /** Holders whose `fail` has decided to requeue and has not written it yet. */
  function Requeuers(s: State, id: TaskId): set<Worker> {
    set w | w in s.workers && Holds(s.workers[w], id) && s.workers[w].Failing? && s.workers[w].verdict.Requeue?
  }

  function PendingCount(s: State, id: TaskId): nat {
    if id in s.rows && s.rows[id].status == Pending then 1 else 0
  }

  /** The event takes the task from whoever holds it: a reclaim that hits it, or an admin retry. */
  predicate Intervenes(s: State, e: Event, id: TaskId) {
    && id in s.rows
    && ((e.Reclaim? && Stale(s.rows[id], e.only, e.cutoff)) || (e.Retry? && e.id == id))
  }

  ghost function Interventions(tr: seq<State>, evs: seq<Event>, n: nat, id: TaskId): nat
    requires n <= |evs| && |tr| == |evs| + 1
  {
    if n == 0 then 0
    else Interventions(tr, evs, n - 1, id) + if Intervenes(tr[n - 1], evs[n - 1], id) then 1 else 0
  }

  /**
   The inductive invariant for one row.  The second clause alone is not kept by
   the steps: it must also count the requeues that are decided but not written.
   */
  ghost predicate Bounded(s: State, id: TaskId, k: nat)
    requires id in s.rows
  {
    var t := s.rows[id];
    && 0 <= t.retryCount
    && |Holders(s, id)| + PendingCount(s, id) <= 1 + k
    && t.retryCount + PendingCount(s, id) + |Requeuers(s, id)| <= Max(1, t.maxRetries) + k
  }

  lemma RequeuersHold(s: State, id: TaskId)
    ensures Requeuers(s, id) <= Holders(s, id)
    ensures |Requeuers(s, id)| <= |Holders(s, id)|
  {
    var r, h := Requeuers(s, id), Holders(s, id);
    assert h == r + (h - r);
  }

  /** Moving one worker to phase `p` changes the two sets at that worker only. */
  lemma Moved(s: State, s': State, w: Worker, p: Phase, id: TaskId)
    requires s'.workers == s.workers[w := p]
    ensures Holders(s', id) == if Holds(p, id) then Holders(s, id) + {w} else Holders(s, id) - {w}
    ensures Requeuers(s', id) == if Holds(p, id) && p.Failing? && p.verdict.Requeue?
                                 then Requeuers(s, id) + {w} else Requeuers(s, id) - {w}
  {
  }

  /** Statements that touch the table only. */
  lemma TableStep(s: State, e: Event, s': State, id: TaskId, k: nat)
    requires Steps(s, e, s') && IdsUsed(s)
    requires e.Tick? || e.Enqueue? || e.Reclaim? || e.Purge? || e.Retry?
    requires id in s.rows ==> Bounded(s, id, k)
    requires id in s'.rows
    ensures Bounded(s', id, k + if Intervenes(s, e, id) then 1 else 0)
  {
    assert Holders(s', id) == Holders(s, id) && Requeuers(s', id) == Requeuers(s, id);
    RequeuersHold(s, id);
    if id !in s.rows {
      assert Holders(s, id) == {};
    }
  }

  lemma ClaimStep(s: State, w: Worker, s': State, id: TaskId, k: nat)
    requires Steps(s, ClaimUpdate(w), s')
    requires id in s.rows && Bounded(s, id, k)
    ensures id in s'.rows && Bounded(s', id, k)
  {
    Moved(s, s', w, s'.workers[w], id);
  }

  /** The worker does not hold the task afterwards, with or without a last write to the row. */
  lemma ReleaseStep(s: State, e: Event, s': State, w: Worker, id: TaskId, k: nat)
    requires Steps(s, e, s')
    requires e == Crash(w) || (e.Complete? && e.w == w) || (e.FailUpdate? && e.w == w) || (e.ClaimSelect? && e.w == w)
    requires id in s.rows && Bounded(s, id, k)
    ensures id in s'.rows && Bounded(s', id, k)
  {
    Released(s, e, s', w, id);
    Moved(s, s', w, s'.workers[w], id);
  }

  /** Its last write keeps the counters; if it makes the row pending, the worker was a requeuer. */
  lemma Released(s: State, e: Event, s': State, w: Worker, id: TaskId)
    requires Steps(s, e, s') && id in s.rows
    requires e == Crash(w) || (e.Complete? && e.w == w) || (e.FailUpdate? && e.w == w) || (e.ClaimSelect? && e.w == w)
    ensures w in s'.workers && s'.workers == s.workers[w := s'.workers[w]] && !Holds(s'.workers[w], id)
    ensures id in s'.rows && s'.rows[id].retryCount == s.rows[id].retryCount && s'.rows[id].maxRetries == s.rows[id].maxRetries
    ensures PendingCount(s', id) > PendingCount(s, id) ==> w in Holders(s, id) && w in Requeuers(s, id)
  {
  }

  /** A worker that holds the task and has not decided yet is one holder more than the requeuers. */
  lemma Undecided(s: State, w: Worker, id: TaskId)
    requires w in s.workers && s.workers[w].Working? && s.workers[w].task == id
    ensures w in Holders(s, id) && w !in Requeuers(s, id)
    ensures |Requeuers(s, id)| + 1 <= |Holders(s, id)|
  {
    var r, h := Requeuers(s, id), Holders(s, id);
    assert h == (r + {w}) + (h - (r + {w}));
  }

  lemma OneElement<T>(a: set<T>, x: T)
    ensures |a - {x}| <= |a| <= |a + {x}| <= |a| + 1
    ensures x in a ==> a + {x} == a
  {
    if x in a { assert a + {x} == a; }
  }

  /** How the failure SELECT of worker `w` changes the two sets. */
  lemma DecideSets(s: State, e: Event, s': State, id: TaskId)
    requires Steps(s, e, s') && e.FailSelect?
    ensures s'.rows == s.rows && |Holders(s', id)| <= |Holders(s, id)|
    ensures |Requeuers(s', id)| <= |Requeuers(s, id)|
            || (&& |Requeuers(s', id)| <= |Requeuers(s, id)| + 1 <= |Holders(s, id)|
                && id in s.rows && s.rows[id].retryCount < s.rows[id].maxRetries)
  {
    var w := e.w;
    var p := s'.workers[w];
    Moved(s, s', w, p, id);
    OneElement(Holders(s, id), w);
    OneElement(Requeuers(s, id), w);
    if PhaseOf(s, w).task == id {
      Undecided(s, w, id);
    }
  }

  /**
   Deciding to requeue: the attempts are below the limit, and because the worker
   itself holds the task, the other requeues and the pending row fit under the interventions.
   */
  lemma DecideStep(s: State, e: Event, s': State, id: TaskId, k: nat)
    requires Steps(s, e, s') && e.FailSelect?
    requires id in s.rows && Bounded(s, id, k)
    ensures id in s'.rows && Bounded(s', id, k)
  {
    DecideSets(s, e, s', id);
    assert PendingCount(s', id) == PendingCount(s, id);
  }

  lemma StepBounded(s: State, e: Event, s': State, id: TaskId, k: nat)
    requires Steps(s, e, s') && IdsUsed(s)
    requires id in s.rows ==> Bounded(s, id, k)
    requires id in s'.rows
    ensures Bounded(s', id, k + if Intervenes(s, e, id) then 1 else 0)
  {
    match e
    case ClaimSelect(w, _, _) => ReleaseStep(s, e, s', w, id, k);
    case ClaimUpdate(w) => ClaimStep(s, w, s', id, k);
    case Complete(w, _) => ReleaseStep(s, e, s', w, id, k);
    case FailSelect(w, _) => DecideStep(s, e, s', id, k);
    case FailUpdate(w, _) => ReleaseStep(s, e, s', w, id, k);
    case Crash(w) => ReleaseStep(s, e, s', w, id, k);
    case _ => TableStep(s, e, s', id, k);
  }

  lemma {:induction false} AlwaysBounded(tr: seq<State>, evs: seq<Event>, n: nat, id: TaskId)
    requires Run(tr, evs) && n <= |evs|
    requires id in tr[n].rows
    ensures Bounded(tr[n], id, Interventions(tr, evs, n, id))
  {
    if n > 0 {
      IdsUsedAlways(tr, evs, n - 1);
      assert Steps(tr[n - 1], evs[n - 1], tr[n]);
      if id in tr[n - 1].rows {
        AlwaysBounded(tr, evs, n - 1, id);
      }
      StepBounded(tr[n - 1], evs[n - 1], tr[n], id, Interventions(tr, evs, n - 1, id));
    }
  }

  /** In every interleaving, holders and attempts exceed one task's worth only by the interventions. */
  lemma HoldersAndAttempts(tr: seq<State>, evs: seq<Event>, n: nat, id: TaskId)
    requires Run(tr, evs) && n <= |evs|
    requires id in tr[n].rows
    ensures |Holders(tr[n], id)| + PendingCount(tr[n], id) <= 1 + Interventions(tr, evs, n, id)
    ensures 0 <= tr[n].rows[id].retryCount <= Max(1, tr[n].rows[id].maxRetries) + Interventions(tr, evs, n, id)
  {
    AlwaysBounded(tr, evs, n, id);
  }
}
