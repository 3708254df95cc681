/**
 The session cut of a password reset, interleaved.  A reset that has passed its
 checks reads the clock and writes that value as `password_changed_at` later; a
 refresh compares its token with the stored value and issues the next token
 later.  One user; which resets pass their checks is the matter of `ResetOverlap`.
 */
module SessionCut {
  import opened Wrappers

  /** A refresh token of the user: when its session began, and when it was issued itself. */
  datatype Session = Session(born: int, iat: int)

  /** `resets` holds the clock value of each reset under way, once it has been read. */
  datatype State = State(
    now: int,
    changedAt: Option<int>,
    resets: map<nat, Option<int>>,
    refreshes: map<nat, Session>,
    sessions: set<Session>)

  datatype Event =
    | Tick(now: int)
    | SignIn(at: int)
    | Begin(r: nat)                      // a reset has passed its checks
    | Stamp(r: nat)                      // and reads the clock
    | Write(r: nat)
    | LookUp(q: nat, session: Session)   // a refresh reads the user record
    | Renew(q: nat, at: int)             // and issues the next token of the session
    | Abandon(r: nat)
    | Leave(q: nat)

  /** The test of `refresh`. */
  predicate Accepted(s: State, x: Session) {
    s.changedAt.None? || s.changedAt.value <= x.iat
  }

  predicate Enabled(s: State, e: Event) {
    match e
    case Tick(t) => s.now <= t
    case SignIn(at) => at <= s.now
    case Begin(r) => r !in s.resets
    case Stamp(r) => r in s.resets && s.resets[r].None?
    case Write(r) => r in s.resets && s.resets[r].Some?
    case LookUp(q, x) => q !in s.refreshes && x in s.sessions
    case Renew(q, at) => q in s.refreshes && at <= s.now
    case Abandon(r) => r in s.resets
    case Leave(q) => q in s.refreshes
  }

  function Apply(s: State, e: Event): State
    requires Enabled(s, e)
  {
    match e
    case Tick(t) => s.(now := t)
    case SignIn(at) => s.(sessions := s.sessions + {Session(at, at)})
    case Begin(r) => s.(resets := s.resets[r := None])
    case Stamp(r) => s.(resets := s.resets[r := Some(s.now)])
    case Write(r) => s.(changedAt := s.resets[r], resets := s.resets - {r})
    case LookUp(q, x) => if Accepted(s, x) then s.(refreshes := s.refreshes[q := x]) else s
    case Renew(q, at) => s.(sessions := s.sessions + {Session(s.refreshes[q].born, at)}, refreshes := s.refreshes - {q})
    case Abandon(r) => s.(resets := s.resets - {r})
    case Leave(q) => s.(refreshes := s.refreshes - {q})
  }

  /** Without overlap: a refresh is refused exactly when the token is older than the stored time, and otherwise adds one token of its session. */
  lemma HalvesMakeARefresh(s: State, q: nat, x: Session, at: int)
    requires q !in s.refreshes && x in s.sessions && at <= s.now
    ensures var s1 := Apply(s, LookUp(q, x));
            if s.changedAt.Some? && x.iat < s.changedAt.value then s1 == s
            else Enabled(s1, Renew(q, at)) && Apply(s1, Renew(q, at)) == s.(sessions := s.sessions + {Session(x.born, at)})
  {
  }

  /** And a reset stores the time it read. */
  lemma PartsMakeAReset(s: State, r: nat)
    requires r !in s.resets
    ensures var s2 := Apply(Apply(s, Begin(r)), Stamp(r)); Enabled(s2, Write(r)) && Apply(s2, Write(r)) == s.(changedAt := Some(s.now))
  {
    assert (s.resets[r := None][r := Some(s.now)]) - {r} == s.resets;
  }

  ghost predicate Steps(s: State, e: Event, s': State) {
    Enabled(s, e) && s' == Apply(s, e)
  }

  ghost predicate Run(tr: seq<State>, evs: seq<Event>) {
    && |tr| == |evs| + 1
    && tr[0].changedAt.None? && tr[0].resets == map[] && tr[0].refreshes == map[] && tr[0].sessions == {}
    && forall i :: 0 <= i < |evs| ==> Steps(tr[i], evs[i], tr[i + 1])
  }

  /** No reset carries a time after now. */
  lemma {:induction false} StampsArePast(tr: seq<State>, evs: seq<Event>, n: nat)
    requires Run(tr, evs) && n <= |evs|
    ensures forall r | r in tr[n].resets && tr[n].resets[r].Some? :: tr[n].resets[r].value <= tr[n].now
  {
    if n > 0 {
      StampsArePast(tr, evs, n - 1);
      assert Steps(tr[n - 1], evs[n - 1], tr[n]);
    }
  }

  // ----- when the stored time falls back -----

  /** The reset has been under way with the same clock value from state `i` to state `m`. */
  ghost predicate StampedSince(tr: seq<State>, i: nat, m: nat, r: nat)
    requires i <= m < |tr|
  {
    r in tr[i].resets && forall t | i <= t <= m :: r in tr[t].resets && tr[t].resets[r] == tr[i].resets[r]
  }

  /** Event `m` writes a time before `p` for a reset that had read it before state `i`. */
  ghost predicate LateWrite(tr: seq<State>, evs: seq<Event>, i: nat, m: nat, p: int)
    requires i <= m < |evs| && |tr| == |evs| + 1
  {
    evs[m].Write? && StampedSince(tr, i, m, evs[m].r) && tr[i].resets[evs[m].r].Some? && tr[i].resets[evs[m].r].value < p
  }

  ghost predicate LateWrites(tr: seq<State>, evs: seq<Event>, i: nat, n: nat, p: int)
    requires i <= n <= |evs| && |tr| == |evs| + 1
  {
    exists m | i <= m < n :: LateWrite(tr, evs, i, m, p)
  }

  ghost predicate Stored(s: State, p: int) {
    s.changedAt.Some? && s.changedAt.value >= p
  }

  /** The stored time is `p` or later, and every reset with an earlier one has carried it since state `i`. */
  ghost predicate CutHolds(tr: seq<State>, i: nat, n: nat, p: int)
    requires i <= n < |tr|
  {
    && p <= tr[n].now && Stored(tr[n], p)
    && (forall r | r in tr[n].resets && tr[n].resets[r].Some? && tr[n].resets[r].value < p :: StampedSince(tr, i, n, r))
  }

  lemma CutStep(tr: seq<State>, evs: seq<Event>, i: nat, n: nat, p: int)
    requires Run(tr, evs) && i <= n < |evs| && CutHolds(tr, i, n, p)
    ensures Stored(tr[n + 1], p) <==> !LateWrite(tr, evs, i, n, p)
    ensures Stored(tr[n + 1], p) ==> CutHolds(tr, i, n + 1, p)
  {
    var s, e, s' := tr[n], evs[n], tr[n + 1];
    assert Steps(s, e, s');
    forall r | r in s'.resets && s'.resets[r].Some? && s'.resets[r].value < p
      ensures StampedSince(tr, i, n + 1, r)
    {
      assert r in s.resets && s.resets[r] == s'.resets[r];
      assert StampedSince(tr, i, n, r);
    }
  }

  /** From state `i` on, where `p` is stored: it is kept, or exceeded, until state `n` exactly when no late write comes. */
  lemma {:induction false} KeptIffNoLateWrite(tr: seq<State>, evs: seq<Event>, i: nat, n: nat, p: int)
    requires Run(tr, evs) && i <= n <= |evs| && tr[i].changedAt == Some(p) && p <= tr[i].now
    ensures (forall t | i <= t <= n :: Stored(tr[t], p)) <==> !LateWrites(tr, evs, i, n, p)
    ensures !LateWrites(tr, evs, i, n, p) ==> CutHolds(tr, i, n, p)
  {
    if i == n {
      assert forall r | r in tr[i].resets :: StampedSince(tr, i, i, r);
    } else {
      KeptIffNoLateWrite(tr, evs, i, n - 1, p);
      assert LateWrites(tr, evs, i, n, p) <==> LateWrites(tr, evs, i, n - 1, p) || LateWrite(tr, evs, i, n - 1, p);
      if !LateWrites(tr, evs, i, n - 1, p) { CutStep(tr, evs, i, n - 1, p); }
    }
  }

  /**
   After a reset has written the time P, the stored time falls below P if and
   only if a reset that was under way at that moment with an earlier time writes.
   */
  lemma CutKeptIff(tr: seq<State>, evs: seq<Event>, i: nat, n: nat, r: nat)
    requires Run(tr, evs) && i < n <= |evs| && evs[i] == Write(r)
    ensures r in tr[i].resets && tr[i].resets[r].Some?
    ensures (forall t | i < t <= n :: Stored(tr[t], tr[i].resets[r].value)) <==>
            !LateWrites(tr, evs, i + 1, n, tr[i].resets[r].value)
  {
    assert Steps(tr[i], evs[i], tr[i + 1]);
    StampsArePast(tr, evs, i);
    KeptIffNoLateWrite(tr, evs, i + 1, n, tr[i].resets[r].value);
  }

  // ----- which sessions survive -----

  /** A session from before `p` has a token from `p` or later, which the cut at `p` lets pass. */
  ghost predicate Escaped(s: State, p: int) {
    exists x | x in s.sessions :: x.born < p <= x.iat
  }

  /** The server still accepts a token of a session from before `p`. */
  ghost predicate OldAccepted(s: State, p: int) {
    exists x | x in s.sessions :: x.born < p && Accepted(s, x)
  }

  ghost predicate RefreshingSince(tr: seq<State>, i: nat, m: nat, q: nat)
    requires i <= m < |tr|
  {
    q in tr[i].refreshes && forall t | i <= t <= m :: q in tr[t].refreshes && tr[t].refreshes[q] == tr[i].refreshes[q]
  }

  /** Event `m` issues a token at `p` or later for an older session whose refresh had read the user before state `i`. */
  ghost predicate LateRenewal(tr: seq<State>, evs: seq<Event>, i: nat, m: nat, p: int)
    requires i <= m < |evs| && |tr| == |evs| + 1
  {
    evs[m].Renew? && p <= evs[m].at && RefreshingSince(tr, i, m, evs[m].q) && tr[i].refreshes[evs[m].q].born < p
  }

  ghost predicate LateRenewals(tr: seq<State>, evs: seq<Event>, i: nat, n: nat, p: int)
    requires i <= n <= |evs| && |tr| == |evs| + 1
  {
    exists m | i <= m < n :: LateRenewal(tr, evs, i, m, p)
  }

  ghost predicate OnlyOldRefreshes(tr: seq<State>, i: nat, n: nat, p: int)
    requires i <= n < |tr|
  {
    forall q | q in tr[n].refreshes && tr[n].refreshes[q].born < p :: RefreshingSince(tr, i, n, q)
  }

  lemma EscapeStep(tr: seq<State>, evs: seq<Event>, i: nat, n: nat, p: int)
    requires Run(tr, evs) && i <= n < |evs| && Stored(tr[n], p) && !Escaped(tr[n], p) && OnlyOldRefreshes(tr, i, n, p)
    ensures Escaped(tr[n + 1], p) <==> LateRenewal(tr, evs, i, n, p)
    ensures OnlyOldRefreshes(tr, i, n + 1, p)
  {
    var s, e, s' := tr[n], evs[n], tr[n + 1];
    assert Steps(s, e, s');
    forall q | q in s'.refreshes && s'.refreshes[q].born < p
      ensures RefreshingSince(tr, i, n + 1, q)
    {
      assert q in s.refreshes && s.refreshes[q] == s'.refreshes[q];
      assert RefreshingSince(tr, i, n, q);
    }
    if e.Renew? {
      var x := Session(s.refreshes[e.q].born, e.at);
      assert x in s'.sessions;
      assert Escaped(s', p) <==> x.born < p <= x.iat;
    } else {
      assert Escaped(s', p) <==> Escaped(s, p);
    }
  }

  lemma {:induction false} EscapedStays(tr: seq<State>, evs: seq<Event>, i: nat, n: nat)
    requires Run(tr, evs) && i <= n <= |evs|
    ensures tr[i].sessions <= tr[n].sessions
  {
    if i < n {
      EscapedStays(tr, evs, i, n - 1);
      assert Steps(tr[n - 1], evs[n - 1], tr[n]);
    }
  }

  /** As long as the stored time is kept: an old session escapes the cut exactly by a late renewal. */
  lemma {:induction false} EscapedIffLateRenewal(tr: seq<State>, evs: seq<Event>, i: nat, n: nat, p: int)
    requires Run(tr, evs) && i <= n <= |evs| && forall t | i <= t <= n :: Stored(tr[t], p)
    ensures Escaped(tr[n], p) <==> Escaped(tr[i], p) || LateRenewals(tr, evs, i, n, p)
    ensures !Escaped(tr[n], p) ==> OnlyOldRefreshes(tr, i, n, p)
  {
    if i == n {
      assert forall q | q in tr[i].refreshes :: RefreshingSince(tr, i, i, q);
    } else {
      EscapedIffLateRenewal(tr, evs, i, n - 1, p);
      EscapedStays(tr, evs, n - 1, n);
      assert LateRenewals(tr, evs, i, n, p) <==> LateRenewals(tr, evs, i, n - 1, p) || LateRenewal(tr, evs, i, n - 1, p);
      if !Escaped(tr[n - 1], p) { EscapeStep(tr, evs, i, n - 1, p); }
    }
  }

  /**
   The cut, over every interleaving: after a reset has written P, and while no
   late write undoes it, a session from before P is accepted only with a token
   from P or later, and such a token exists exactly when a refresh that had read
   the user record before the write issued it.  Until another reset moves the
   stored time, that is exactly when an old session is accepted.
   */
  lemma SurvivesIffEscaped(tr: seq<State>, evs: seq<Event>, i: nat, n: nat, r: nat)
    requires Run(tr, evs) && i < n <= |evs| && evs[i] == Write(r)
    ensures r in tr[i].resets && tr[i].resets[r].Some?
    ensures var p := tr[i].resets[r].value;
            !LateWrites(tr, evs, i + 1, n, p) ==>
              && (Escaped(tr[n], p) <==> Escaped(tr[i + 1], p) || LateRenewals(tr, evs, i + 1, n, p))
              && (OldAccepted(tr[n], p) ==> Escaped(tr[n], p))
              && (tr[n].changedAt == Some(p) ==> (OldAccepted(tr[n], p) <==> Escaped(tr[n], p)))
  {
    CutKeptIff(tr, evs, i, n, r);
    var p := tr[i].resets[r].value;
    if !LateWrites(tr, evs, i + 1, n, p) {
      EscapedIffLateRenewal(tr, evs, i + 1, n, p);
      assert Stored(tr[n], p);
    }
  }

  /** In particular a reset that writes while no other reset and no refresh is under way, before any token of P or later: every old session is cut. */
  lemma QuietResetCutsAll(tr: seq<State>, evs: seq<Event>, i: nat, n: nat, r: nat, x: Session)
    requires Run(tr, evs) && i < n <= |evs| && evs[i] == Write(r)
    requires tr[i].resets.Keys == {r} && tr[i].refreshes == map[]
    requires r in tr[i].resets && tr[i].resets[r].Some? && !Escaped(tr[i], tr[i].resets[r].value)
    requires x in tr[n].sessions && Accepted(tr[n], x)
    ensures x.born >= tr[i].resets[r].value
  {
    assert Steps(tr[i], evs[i], tr[i + 1]);
    assert tr[i + 1].resets == map[] && tr[i + 1].refreshes == map[] && tr[i + 1].sessions == tr[i].sessions;
    SurvivesIffEscaped(tr, evs, i, n, r);
  }

  // ----- both ways to survive -----

  lemma Extend(tr: seq<State>, evs: seq<Event>, e: Event) returns (tr': seq<State>, evs': seq<Event>)
    requires Run(tr, evs) && Enabled(tr[|evs|], e)
    ensures evs' == evs + [e] && tr' == tr + [Apply(tr[|evs|], e)]
    ensures Run(tr', evs') && tr'[|evs'|] == Apply(tr[|evs|], e)
  {
    evs', tr' := evs + [e], tr + [Apply(tr[|evs|], e)];
    forall i | 0 <= i < |evs'|
      ensures Steps(tr'[i], evs'[i], tr'[i + 1])
    {
      if i < |evs| { assert Steps(tr[i], evs[i], tr[i + 1]); }
    }
  }

  /** For every birth and every later reset: a refresh across the reset carries the old session over. */
  lemma RefreshAcrossReset(born: int, p: int) returns (tr: seq<State>, evs: seq<Event>)
    requires born < p
    ensures Run(tr, evs) && tr[|evs|].changedAt == Some(p)
    ensures Session(born, p) in tr[|evs|].sessions && Accepted(tr[|evs|], Session(born, p))
  {
    tr, evs := [State(born, None, map[], map[], {})], [];
    tr, evs := Extend(tr, evs, SignIn(born));
    tr, evs := Extend(tr, evs, LookUp(0, Session(born, born)));
    tr, evs := Extend(tr, evs, Tick(p));
    tr, evs := Extend(tr, evs, Begin(0));
    tr, evs := Extend(tr, evs, Stamp(0));
    tr, evs := Extend(tr, evs, Write(0));
    tr, evs := Extend(tr, evs, Renew(0, p));
  }

  /** For every birth and every later reset: an overlapping older reset that writes last brings the old session back. */
  lemma OlderResetWritesLast(born: int, p: int) returns (tr: seq<State>, evs: seq<Event>)
    requires born < p
    ensures Run(tr, evs) && |evs| >= 1 && tr[|evs| - 1].changedAt == Some(p) && !Accepted(tr[|evs| - 1], Session(born, born))
    ensures Session(born, born) in tr[|evs|].sessions && Accepted(tr[|evs|], Session(born, born))
  {
    tr, evs := [State(born, None, map[], map[], {})], [];
    tr, evs := Extend(tr, evs, SignIn(born));
    tr, evs := Extend(tr, evs, Begin(0));
    tr, evs := Extend(tr, evs, Stamp(0));
    tr, evs := Extend(tr, evs, Tick(p));
    tr, evs := Extend(tr, evs, Begin(1));
    tr, evs := Extend(tr, evs, Stamp(1));
    tr, evs := Extend(tr, evs, Write(1));
    tr, evs := Extend(tr, evs, Write(0));
  }
}
