/**
 Overlapping MFA challenges of one user.  `mfa_challenge` verifies a code
 against the stored step and writes the new step back in a later statement, so
 other challenges may run in between.
 */
module MfaOverlap {
  import opened Wrappers
  import Mfa

  /** A challenge whose code was accepted and whose step is not stored yet. */
  datatype Flight = Flight(code: Mfa.Code, at: int, step: int)

  /** `accepted` lists the challenges that stored their step and answered with tokens. */
  datatype State = State(account: Mfa.Account, flights: map<nat, Flight>, accepted: seq<Flight>)

  datatype Event =
    | Read(r: nat, code: Mfa.Code, at: int, faults: Mfa.Faults)
    | Write(r: nat)
    | Abandon(r: nat)         // the request is lost, or storing its step fails
    | Other(q: Mfa.Request)   // setup, its verification, or disabling

  predicate Enabled(s: State, e: Event) {
    match e
    case Read(r, _, _, _) => r !in s.flights
    case Write(r) => r in s.flights
    case Abandon(r) => r in s.flights
    case Other(q) => !q.Challenge?
  }

  /** A challenge up to the accepted code: all its effects but the stored step. */
  function ReadPart(gen: Mfa.Generator, a: Mfa.Account, code: Mfa.Code, now: int, f: Mfa.Faults): (Mfa.Account, Result<int, Mfa.Failure>) {
    var (a', r) := Mfa.ChallengeEffect(gen, a, code, now, f.(store := false));
    (a'.(lastStep := a.lastStep), r)
  }

  function Apply(gen: Mfa.Generator, s: State, e: Event): State
    requires Enabled(s, e)
  {
    match e
    case Read(r, code, at, faults) =>
      var (a, res) := ReadPart(gen, s.account, code, at, faults);
      s.(account := a, flights := if res.Ok? then s.flights[r := Flight(code, at, res.value)] else s.flights)
    case Write(r) =>
      s.(account := s.account.(lastStep := Some(s.flights[r].step)), flights := s.flights - {r}, accepted := s.accepted + [s.flights[r]])
    case Abandon(r) => s.(flights := s.flights - {r})
    case Other(q) => s.(account := Mfa.Apply(gen, Mfa.State(s.account, q.at, []), q).account)
  }

  ghost predicate Steps(gen: Mfa.Generator, s: State, e: Event, s': State) {
    Enabled(s, e) && s' == Apply(gen, s, e)
  }

  ghost predicate Run(gen: Mfa.Generator, tr: seq<State>, evs: seq<Event>) {
    && |tr| == |evs| + 1
    && tr[0] == State(Mfa.NEW_ACCOUNT, map[], [])
    && forall i :: 0 <= i < |evs| ==> Steps(gen, tr[i], evs[i], tr[i + 1])
  }

  /** Without overlap the two halves are the atomic challenge of `Mfa`. */
  lemma HalvesMakeAChallenge(gen: Mfa.Generator, s: State, r: nat, code: Mfa.Code, at: int, f: Mfa.Faults)
    requires r !in s.flights && Mfa.ChallengeEffect(gen, s.account, code, at, f).1.Ok?
    ensures r in Apply(gen, s, Read(r, code, at, f)).flights
    ensures var s' := Apply(gen, Apply(gen, s, Read(r, code, at, f)), Write(r));
            s'.account == Mfa.ChallengeEffect(gen, s.account, code, at, f).0 && s'.flights == s.flights
  {
  }

  // ----- when a stored step, or an older one, is accepted again -----

  /** No activation or reset clears the stored step. */
  ghost predicate NoReset(tr: seq<State>, evs: seq<Event>, i: nat, n: nat)
    requires i <= n <= |evs| && |tr| == |evs| + 1
  {
    forall m | i <= m < n && evs[m].Other? :: tr[m + 1].account.lastStep == tr[m].account.lastStep
  }

  /** The challenge has been under way, the same, from state `i` to state `m`. */
  ghost predicate UnderWaySince(tr: seq<State>, i: nat, m: nat, r: nat)
    requires i <= m < |tr|
  {
    r in tr[i].flights && forall t | i <= t <= m :: r in tr[t].flights && tr[t].flights[r] == tr[i].flights[r]
  }

  /** Event `m` stores a step of at most `k` for a challenge that has been under way since state `i`. */
  ghost predicate StragglerWrites(tr: seq<State>, evs: seq<Event>, i: nat, m: nat, k: int)
    requires i <= m < |evs| && |tr| == |evs| + 1
  {
    evs[m].Write? && UnderWaySince(tr, i, m, evs[m].r) && tr[m].flights[evs[m].r].step <= k
  }

  ghost predicate Straggled(tr: seq<State>, evs: seq<Event>, i: nat, n: nat, k: int)
    requires i <= n <= |evs| && |tr| == |evs| + 1
  {
    exists m | i <= m < n :: StragglerWrites(tr, evs, i, m, k)
  }

  /** From position `from` on, a step of at most `k` was accepted. */
  ghost predicate Replayed(s: State, from: nat, k: int) {
    exists j | from <= j < |s.accepted| :: s.accepted[j].step <= k
  }

  /** Before the first straggler: the stored step is `k` or later, and only stragglers carry an older one. */
  ghost predicate OnlyStragglers(tr: seq<State>, i: nat, n: nat, k: int)
    requires i <= n < |tr|
  {
    && tr[n].account.lastStep.Some? && tr[n].account.lastStep.value >= k
    && (forall r | r in tr[n].flights && tr[n].flights[r].step <= k :: UnderWaySince(tr, i, n, r))
  }

  lemma StragglersStep(gen: Mfa.Generator, tr: seq<State>, evs: seq<Event>, i: nat, n: nat, k: int)
    requires Run(gen, tr, evs) && i <= n < |evs| && OnlyStragglers(tr, i, n, k) && !StragglerWrites(tr, evs, i, n, k)
    requires evs[n].Other? ==> tr[n + 1].account.lastStep == tr[n].account.lastStep
    ensures OnlyStragglers(tr, i, n + 1, k)
  {
    var s, e, s' := tr[n], evs[n], tr[n + 1];
    assert Steps(gen, s, e, s');
    forall r | r in s'.flights && s'.flights[r].step <= k
      ensures UnderWaySince(tr, i, n + 1, r)
    {
      assert r in s.flights && s.flights[r] == s'.flights[r];
      assert UnderWaySince(tr, i, n, r);
    }
  }

  /** One event adds an old step exactly when it is a straggler's write, as long as there was none before. */
  lemma ReplayStep(gen: Mfa.Generator, tr: seq<State>, evs: seq<Event>, i: nat, n: nat, k: int, from: nat)
    requires Run(gen, tr, evs) && i <= n < |evs| && from <= |tr[n].accepted|
    requires OnlyStragglers(tr, i, n, k) && !Replayed(tr[n], from, k)
    ensures Replayed(tr[n + 1], from, k) <==> StragglerWrites(tr, evs, i, n, k)
  {
    assert Steps(gen, tr[n], evs[n], tr[n + 1]);
    if StragglerWrites(tr, evs, i, n, k) {
      assert tr[n + 1].accepted[|tr[n].accepted|].step <= k;
    }
  }

  lemma ReplayedStays(gen: Mfa.Generator, s: State, e: Event, s': State, from: nat, k: int)
    requires Steps(gen, s, e, s')
    ensures |s.accepted| <= |s'.accepted|
    ensures Replayed(s, from, k) ==> Replayed(s', from, k)
  {
    if Replayed(s, from, k) {
      var j :| from <= j < |s.accepted| && s.accepted[j].step <= k;
      assert s'.accepted[j] == s.accepted[j];
    }
  }

  lemma {:induction false} ReplayIffStraggled(gen: Mfa.Generator, tr: seq<State>, evs: seq<Event>, i: nat, n: nat, k: int)
    requires Run(gen, tr, evs) && i <= n <= |evs| && NoReset(tr, evs, i, n)
    requires tr[i].account.lastStep == Some(k)
    ensures Replayed(tr[n], |tr[i].accepted|, k) <==> Straggled(tr, evs, i, n, k)
    ensures !Straggled(tr, evs, i, n, k) ==> OnlyStragglers(tr, i, n, k)
    ensures |tr[i].accepted| <= |tr[n].accepted|
  {
    if i == n {
      assert forall r | r in tr[i].flights :: UnderWaySince(tr, i, i, r);
    } else {
      ReplayIffStraggled(gen, tr, evs, i, n - 1, k);
      assert Steps(gen, tr[n - 1], evs[n - 1], tr[n]);
      ReplayedStays(gen, tr[n - 1], evs[n - 1], tr[n], |tr[i].accepted|, k);
      assert Straggled(tr, evs, i, n, k) <==> Straggled(tr, evs, i, n - 1, k) || StragglerWrites(tr, evs, i, n - 1, k);
      if !Straggled(tr, evs, i, n - 1, k) {
        ReplayStep(gen, tr, evs, i, n - 1, k, |tr[i].accepted|);
        if !StragglerWrites(tr, evs, i, n - 1, k) { StragglersStep(gen, tr, evs, i, n - 1, k); }
      }
    }
  }

  /**
   The exact condition, over every interleaving: after a challenge has stored its
   step, that step or an older one is accepted again before the next reset if and
   only if a challenge that was under way at that moment, with such a step, writes.
   */
  lemma StepReplayedIffStraggler(gen: Mfa.Generator, tr: seq<State>, evs: seq<Event>, i: nat, n: nat, r: nat)
    requires Run(gen, tr, evs) && i < n <= |evs| && evs[i] == Write(r) && NoReset(tr, evs, i + 1, n)
    ensures r in tr[i].flights
    ensures Replayed(tr[n], |tr[i + 1].accepted|, tr[i].flights[r].step) <==> Straggled(tr, evs, i + 1, n, tr[i].flights[r].step)
  {
    assert Steps(gen, tr[i], evs[i], tr[i + 1]);
    ReplayIffStraggled(gen, tr, evs, i + 1, n, tr[i].flights[r].step);
  }

  /** In particular a challenge that stores its step while no other is under way is final. */
  lemma LoneWriteIsFinal(gen: Mfa.Generator, tr: seq<State>, evs: seq<Event>, i: nat, n: nat, r: nat, j: nat)
    requires Run(gen, tr, evs) && i < n <= |evs| && evs[i] == Write(r) && tr[i].flights.Keys == {r}
    requires NoReset(tr, evs, i + 1, n) && |tr[i + 1].accepted| <= j < |tr[n].accepted|
    ensures tr[n].accepted[j].step > tr[i].flights[r].step
  {
    assert Steps(gen, tr[i], evs[i], tr[i + 1]);
    StepReplayedIffStraggler(gen, tr, evs, i, n, r);
    assert tr[i + 1].flights == map[];
  }

  // ----- overlapping challenges replay a code -----

  lemma Extend(gen: Mfa.Generator, tr: seq<State>, evs: seq<Event>, e: Event) returns (tr': seq<State>, evs': seq<Event>)
    requires Run(gen, tr, evs) && Enabled(tr[|evs|], e)
    ensures Run(gen, tr', evs') && evs' == evs + [e] && tr'[|evs'|] == Apply(gen, tr[|evs|], e)
  {
    evs', tr' := evs + [e], tr + [Apply(gen, tr[|evs|], e)];
    forall i | 0 <= i < |evs'| ensures Steps(gen, tr'[i], evs'[i], tr'[i + 1]) {
      if i < |evs| { assert Steps(gen, tr[i], evs[i], tr[i + 1]); }
    }
  }

  /** A user with `secret` activated in the step before `k`, in a run without challenges. */
  lemma Activated(gen: Mfa.Generator, secret: Mfa.Secret, k: int) returns (tr: seq<State>, evs: seq<Event>)
    ensures Run(gen, tr, evs)
    ensures tr[|evs|] == State(Mfa.NEW_ACCOUNT.(enabled := true, secret := Some(secret)), map[], [])
  {
    var t, code := Mfa.Opening(k - 1), gen(secret, k - 1);
    tr, evs := [State(Mfa.NEW_ACCOUNT, map[], [])], [];
    tr, evs := Extend(gen, tr, evs, Other(Mfa.Setup(secret, t)));
    assert Mfa.CodeMatches(gen, secret, code, Mfa.StepOf(t));
    tr, evs := Extend(gen, tr, evs, Other(Mfa.VerifySetup(code, t)));
  }

  lemma ReadAccepted(gen: Mfa.Generator, s: State, r: nat, secret: Mfa.Secret, k: int)
    requires |s.account.attempts| < Mfa.MFA_MAX_ATTEMPTS && !s.account.locked && s.account.secret == Some(secret)
    requires s.account.lastStep.None? && r !in s.flights
    ensures Apply(gen, s, Read(r, gen(secret, k), Mfa.Opening(k), Mfa.NO_FAULTS)).flights == s.flights[r := Flight(gen(secret, k), Mfa.Opening(k), k)]
    ensures var a := Apply(gen, s, Read(r, gen(secret, k), Mfa.Opening(k), Mfa.NO_FAULTS)).account;
            |a.attempts| == |s.account.attempts| + 1 && !a.locked && a.secret == Some(secret) && a.lastStep.None?
    ensures Apply(gen, s, Read(r, gen(secret, k), Mfa.Opening(k), Mfa.NO_FAULTS)).accepted == s.accepted
  {
    Mfa.ChallengeAccepted(gen, Mfa.State(s.account, 0, []), gen(secret, k), Mfa.Opening(k), k);
  }

  lemma BothUnderWay(gen: Mfa.Generator, secret: Mfa.Secret, k: int) returns (tr: seq<State>, evs: seq<Event>)
    ensures Run(gen, tr, evs) && tr[|evs|].accepted == []
    ensures var f := Flight(gen(secret, k), Mfa.Opening(k), k); tr[|evs|].flights == map[0 := f, 1 := f]
  {
    tr, evs := Activated(gen, secret, k);
    ReadAccepted(gen, tr[|evs|], 0, secret, k);
    tr, evs := Extend(gen, tr, evs, Read(0, gen(secret, k), Mfa.Opening(k), Mfa.NO_FAULTS));
    ReadAccepted(gen, tr[|evs|], 1, secret, k);
    tr, evs := Extend(gen, tr, evs, Read(1, gen(secret, k), Mfa.Opening(k), Mfa.NO_FAULTS));
  }

  /** Two overlapping challenges both succeed with one code in one step, for every generator, secret and step. */
  lemma OverlapReplays(gen: Mfa.Generator, secret: Mfa.Secret, k: int) returns (tr: seq<State>, evs: seq<Event>)
    ensures Run(gen, tr, evs)
    ensures tr[|evs|].accepted == [Flight(gen(secret, k), Mfa.Opening(k), k), Flight(gen(secret, k), Mfa.Opening(k), k)]
  {
    tr, evs := BothUnderWay(gen, secret, k);
    tr, evs := Extend(gen, tr, evs, Write(0));
    tr, evs := Extend(gen, tr, evs, Write(1));
  }
}
