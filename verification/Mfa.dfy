/**
 TOTP verification and the MFA handlers of one user, each handler one atomic
 step with one clock reading.  `gen` stands for the code generator of RFC 6238:
 any function of the secret and the 30-second step.
 */
module Mfa {
  import opened Wrappers
  import LogLimiter

  type Secret = nat
  type Code = string
  type Generator = (Secret, int) -> Code

  const TOTP_SKEW := 1
  const MFA_MAX_ATTEMPTS := 5
  const MFA_WINDOW_SECS := 900
  const ACTION := "mfa_attempt"

  datatype Failure = Unavailable | RateLimited | Locked | NotConfigured | NotEnabled | AlreadyEnabled | NoSetup | CodeAlreadyUsed | InvalidCode

  /** The MFA fields of the user record and the user's rows in `mfa_attempts`. */
  datatype Account = Account(
    enabled: bool,
    secret: Option<Secret>,
    pending: Option<Secret>,
    lastStep: Option<int>,
    locked: bool,
    lockedAt: Option<int>,
    attempts: seq<LogLimiter.Attempt>)

  const NEW_ACCOUNT := Account(false, None, None, None, false, None, [])

  /** The 30-second step a time falls in. */
  function StepOf(now: int): (step: int)
    ensures 30 * step <= now < 30 * step + 30
  {
    now / 30
  }

  /** The first second of a step. */
  function Opening(step: int): (now: int)
    ensures StepOf(now) == step && StepOf(now - 1) == step - 1
  {
    30 * step
  }

  predicate CodeMatches(gen: Generator, secret: Secret, code: Code, step: int) {
    exists t | step - TOTP_SKEW <= t <= step + TOTP_SKEW :: gen(secret, t) == code
  }

  /** `verify_totp`: refuse a step not after the last used one, then try the code with skew. */
  function VerifyTotp(gen: Generator, secret: Secret, code: Code, last: Option<int>, now: int): Result<int, Failure> {
    if last.Some? && StepOf(now) <= last.value then Err(CodeAlreadyUsed)
    else if CodeMatches(gen, secret, code, StepOf(now)) then Ok(StepOf(now))
    else Err(InvalidCode)
  }

  // ----- what each handler does to the account -----

  function SetupEffect(a: Account, secret: Secret): (Account, Result<(), Failure>) {
    if a.enabled then (a, Err(AlreadyEnabled)) else (a.(pending := Some(secret)), Ok(()))
  }

  function VerifySetupEffect(gen: Generator, a: Account, code: Code, now: int): (Account, Result<int, Failure>) {
    if a.pending.None? then (a, Err(NoSetup))
    else
      var r := VerifyTotp(gen, a.pending.value, code, None, now);
      (if r.Ok? then a.(enabled := true, secret := a.pending, lastStep := None, pending := None) else a, r)
  }

  /**
   The database calls of a challenge that fail: the count of the attempts, their
   log, the lock, the user lookup, the unlock, and the storing of the step.  The
   source ignores a failed log, lock or unlock.
   */
  datatype Faults = Faults(count: bool, log: bool, lock: bool, lookup: bool, unlock: bool, store: bool)

  const NO_FAULTS := Faults(false, false, false, false, false, false)

  /** Rate limit first (its refusal, or the failure to decide it, locks the account), then the lock, then the code. */
  function ChallengeEffect(gen: Generator, a: Account, code: Code, now: int, f: Faults): (Account, Result<int, Failure>) {
    if f.count || LogLimiter.CountSince(a.attempts, ACTION, now - MFA_WINDOW_SECS) >= MFA_MAX_ATTEMPTS
    then (if f.lock then a else a.(locked := true, lockedAt := Some(now)), Err(if f.count then Unavailable else RateLimited))
    else
      var a1 := if f.log then a else a.(attempts := a.attempts + [LogLimiter.Attempt(ACTION, now)]);
      if f.lookup then (a1, Err(Unavailable))
      else if a.locked && !(a.lockedAt.Some? && now - a.lockedAt.value > MFA_WINDOW_SECS) then (a1, Err(Locked))
      else
        var a2 := if f.unlock then a1 else a1.(locked := false);
        if a.secret.None? then (a2, Err(NotConfigured))
        else
          var r := VerifyTotp(gen, a.secret.value, code, a.lastStep, now);
          if r.Err? then (a2, r)
          else if f.store then (a2, Err(Unavailable))
          else (a2.(lastStep := Some(r.value)), r)
  }

  function DisableEffect(gen: Generator, a: Account, code: Code, now: int): (Account, Result<int, Failure>) {
    if !a.enabled then (a, Err(NotEnabled))
    else if a.secret.None? then (a, Err(NotConfigured))
    else
      var r := VerifyTotp(gen, a.secret.value, code, a.lastStep, now);
      (if r.Ok? then a.(enabled := false, secret := None, lastStep := None, pending := None) else a, r)
  }

  // ----- what the handlers are to decide -----

  /** The code belongs to a step that has begun, or begins within 30 s, and ended less than 30 s ago, if at all. */
  ghost predicate Fits(gen: Generator, secret: Option<Secret>, code: Code, now: int) {
    secret.Some? && exists t | 30 * t - 30 <= now < 30 * t + 60 :: gen(secret.value, t) == code
  }

  /** The step of the time is after the last one used. */
  ghost predicate Fresh(last: Option<int>, now: int) {
    last.None? || 30 * (last.value + 1) <= now
  }

  ghost function Recent(a: Account, now: int): nat { |LogLimiter.Rows(a.attempts, "mfa_attempt", now - 900)| }

  /** Counted, under five attempts in 900 s, looked up, and not locked in the last 900 s. */
  ghost predicate Admitted(a: Account, now: int, f: Faults) {
    !f.count && Recent(a, now) < 5 && !f.lookup && (a.locked ==> a.lockedAt.Some? && a.lockedAt.value + 900 < now)
  }

  lemma DecisionsAgree(gen: Generator, a: Account, code: Code, now: int)
    ensures Recent(a, now) == LogLimiter.CountSince(a.attempts, ACTION, now - MFA_WINDOW_SECS)
    ensures Fresh(a.lastStep, now) <==> a.lastStep.None? || a.lastStep.value < StepOf(now)
    ensures Fits(gen, a.secret, code, now) <==> a.secret.Some? && CodeMatches(gen, a.secret.value, code, StepOf(now))
    ensures Fits(gen, a.pending, code, now) <==> a.pending.Some? && CodeMatches(gen, a.pending.value, code, StepOf(now))
  {
    LogLimiter.CountIsCardinality(a.attempts, ACTION, now - MFA_WINDOW_SECS);
    FitsIsMatch(gen, a.secret, code, now);
    FitsIsMatch(gen, a.pending, code, now);
  }

  lemma FitsIsMatch(gen: Generator, secret: Option<Secret>, code: Code, now: int)
    ensures Fits(gen, secret, code, now) <==> secret.Some? && CodeMatches(gen, secret.value, code, StepOf(now))
  {
    assert forall t :: 30 * t - 30 <= now < 30 * t + 60 <==> StepOf(now) - 1 <= t <= StepOf(now) + 1;
  }

  /** The answer to a challenge, each refusal with its own guard. */
  ghost predicate ChallengeAnswer(gen: Generator, a: Account, code: Code, now: int, f: Faults, r: Result<int, Failure>) {
    && (r.Ok? <==> Admitted(a, now, f) && Fresh(a.lastStep, now) && Fits(gen, a.secret, code, now) && !f.store)
    && (r == Err(RateLimited) <==> !f.count && Recent(a, now) >= 5)
    && (r == Err(Locked) <==>
        !f.count && Recent(a, now) < 5 && !f.lookup && a.locked && !(a.lockedAt.Some? && a.lockedAt.value + 900 < now))
    && (r == Err(NotConfigured) <==> Admitted(a, now, f) && a.secret.None?)
    && (r == Err(CodeAlreadyUsed) <==> Admitted(a, now, f) && a.secret.Some? && !Fresh(a.lastStep, now))
    && (r == Err(InvalidCode) <==>
        Admitted(a, now, f) && a.secret.Some? && Fresh(a.lastStep, now) && !Fits(gen, a.secret, code, now))
    && (r.Err? ==> r.error in {RateLimited, Locked, NotConfigured, CodeAlreadyUsed, InvalidCode, Unavailable})
  }

  /**
   The account after it: a success stores its step, attempts that pass the limiter
   are logged and the others lock the account, and nothing touches the secrets.
   */
  ghost predicate ChallengeRecord(a: Account, a': Account, now: int, f: Faults, r: Result<int, Failure>) {
    var stopped := f.count || Recent(a, now) >= 5;
    && (r.Ok? ==> a'.lastStep == Some(r.value) && 30 * r.value <= now < 30 * r.value + 30)
    && (r.Err? ==> a'.lastStep == a.lastStep)
    && a'.enabled == a.enabled && a'.secret == a.secret && a'.pending == a.pending
    && a'.attempts == (if stopped || f.log then a.attempts else a.attempts + [LogLimiter.Attempt("mfa_attempt", now)])
    && (stopped && !f.lock ==> a'.locked && a'.lockedAt == Some(now))
    && (!stopped || f.lock ==> a'.lockedAt == a.lockedAt)
    && (stopped && f.lock ==> a'.locked == a.locked)
    && (!stopped ==> a'.locked == (a.locked && !(Admitted(a, now, f) && !f.unlock)))
  }

  lemma ChallengeAnswers(gen: Generator, a: Account, code: Code, now: int, f: Faults)
    ensures ChallengeAnswer(gen, a, code, now, f, ChallengeEffect(gen, a, code, now, f).1)
  {
    DecisionsAgree(gen, a, code, now);
  }

  lemma ChallengeRecords(gen: Generator, a: Account, code: Code, now: int, f: Faults)
    ensures ChallengeRecord(a, ChallengeEffect(gen, a, code, now, f).0, now, f, ChallengeEffect(gen, a, code, now, f).1)
  {
    DecisionsAgree(gen, a, code, now);
  }

  class MfaHandlers {
    const gen: Generator
    var account: Account

    constructor (gen: Generator)
      ensures this.gen == gen && account == NEW_ACCOUNT
    {
      this.gen := gen;
      account := NEW_ACCOUNT;
    }

    method Setup(secret: Secret) returns (r: Result<(), Failure>)
      modifies this
      ensures r == if old(account).enabled then Err(AlreadyEnabled) else Ok(())
      ensures r.Ok? ==> account.pending == Some(secret)
      ensures account.(pending := None) == old(account).(pending := None)   // nothing else changes
      ensures r.Err? ==> account == old(account)
      ensures (account, r) == SetupEffect(old(account), secret)
    {
      if account.enabled { return Err(AlreadyEnabled); }
      account := account.(pending := Some(secret));
      r := Ok(());
    }

    method VerifySetup(code: Code, now: int) returns (r: Result<int, Failure>)
      modifies this
      ensures r.Ok? <==> Fits(gen, old(account).pending, code, now)
      ensures r.Err? ==> account == old(account) && r.error == if old(account).pending.None? then NoSetup else InvalidCode
      ensures r.Ok? ==> account.enabled && account.secret == old(account).pending && account.pending.None? && account.lastStep.None?
      ensures LimiterOf(account) == LimiterOf(old(account))
      ensures (account, r) == VerifySetupEffect(gen, old(account), code, now)
    {
      DecisionsAgree(gen, account, code, now);
      if account.pending.None? { return Err(NoSetup); }
      r := VerifyTotp(gen, account.pending.value, code, None, now);
      if r.Ok? {
        account := account.(enabled := true, secret := account.pending, lastStep := None, pending := None);
      }
    }

    method Challenge(code: Code, now: int, f: Faults) returns (r: Result<int, Failure>)
      modifies this
      ensures ChallengeAnswer(gen, old(account), code, now, f, r)
      ensures ChallengeRecord(old(account), account, now, f, r)
      ensures (account, r) == ChallengeEffect(gen, old(account), code, now, f)
    {
      ChallengeAnswers(gen, account, code, now, f);
      ChallengeRecords(gen, account, code, now, f);
      if f.count || LogLimiter.CountSince(account.attempts, ACTION, now - MFA_WINDOW_SECS) >= MFA_MAX_ATTEMPTS {
        if !f.lock { account := account.(locked := true, lockedAt := Some(now)); }
        return Err(if f.count then Unavailable else RateLimited);
      }
      if !f.log { account := account.(attempts := account.attempts + [LogLimiter.Attempt(ACTION, now)]); }
      if f.lookup { return Err(Unavailable); }
      if account.locked {
        if account.lockedAt.Some? && now - account.lockedAt.value > MFA_WINDOW_SECS {
          if !f.unlock { account := account.(locked := false); }
        } else {
          return Err(Locked);
        }
      }
      if account.secret.None? { return Err(NotConfigured); }
      r := VerifyTotp(gen, account.secret.value, code, account.lastStep, now);
      if r.Ok? {
        if f.store { return Err(Unavailable); }
        account := account.(lastStep := Some(r.value));
      }
    }

    method Disable(code: Code, now: int) returns (r: Result<int, Failure>)
      modifies this
      ensures r.Ok? <==> old(account).enabled && Fresh(old(account).lastStep, now) && Fits(gen, old(account).secret, code, now)
      ensures r.Err? ==> account == old(account)
                         && r.error == if !old(account).enabled then NotEnabled
                                       else if old(account).secret.None? then NotConfigured
                                       else if !Fresh(old(account).lastStep, now) then CodeAlreadyUsed
                                       else InvalidCode
      ensures r.Ok? ==> !account.enabled && account.secret.None? && account.pending.None? && account.lastStep.None?
      ensures LimiterOf(account) == LimiterOf(old(account))
      ensures (account, r) == DisableEffect(gen, old(account), code, now)
    {
      DecisionsAgree(gen, account, code, now);
      if !account.enabled { return Err(NotEnabled); }
      if account.secret.None? { return Err(NotConfigured); }
      r := VerifyTotp(gen, account.secret.value, code, account.lastStep, now);
      if r.Ok? {
        account := account.(enabled := false, secret := None, lastStep := None, pending := None);
      }
    }
  }

  /** The lock and the logged attempts. */
  function LimiterOf(a: Account): (bool, Option<int>, seq<LogLimiter.Attempt>) { (a.locked, a.lockedAt, a.attempts) }

  // ----- runs -----

  datatype Request =
    | Setup(secret: Secret, at: int)
    | VerifySetup(code: Code, at: int)
    | Challenge(code: Code, at: int, faults: Faults)
    | Disable(code: Code, at: int)

  /** A successful challenge. */
  datatype Accept = Accept(code: Code, at: int)

  /** The account, the time of the last request, and the successes since the last activation or reset. */
  datatype State = State(account: Account, last: int, accepted: seq<Accept>)

  function Apply(gen: Generator, s: State, q: Request): State {
    match q
    case Setup(secret, at) => State(SetupEffect(s.account, secret).0, at, s.accepted)
    case VerifySetup(code, at) =>
      var (a, r) := VerifySetupEffect(gen, s.account, code, at);
      State(a, at, if r.Ok? then [] else s.accepted)
    case Challenge(code, at, faults) =>
      var (a, r) := ChallengeEffect(gen, s.account, code, at, faults);
      State(a, at, if r.Ok? then s.accepted + [Accept(code, at)] else s.accepted)
    case Disable(code, at) =>
      var (a, r) := DisableEffect(gen, s.account, code, at);
      State(a, at, if r.Ok? then [] else s.accepted)
  }

  function After(gen: Generator, start: int, qs: seq<Request>): State {
    if qs == [] then State(NEW_ACCOUNT, start, [])
    else Apply(gen, After(gen, start, qs[..|qs| - 1]), qs[|qs| - 1])
  }

  ghost predicate InOrder(start: int, qs: seq<Request>) {
    && (forall i | 0 <= i < |qs| :: start <= qs[i].at)
    && (forall i, j | 0 <= i < j < |qs| :: qs[i].at <= qs[j].at)
  }

  // ----- accepted steps increase -----

  ghost predicate Replayless(gen: Generator, s: State) {
    var acc := s.accepted;
    && (acc != [] ==> s.account.lastStep == Some(StepOf(acc[|acc| - 1].at)) && s.account.secret.Some?)
    && (forall i, j | 0 <= i < j < |acc| :: StepOf(acc[i].at) < StepOf(acc[j].at))
    && (forall i | 0 <= i < |acc| :: s.account.secret.Some? && CodeMatches(gen, s.account.secret.value, acc[i].code, StepOf(acc[i].at)))
    && (s.account.secret.None? ==> acc == [])
  }

  /** An accepted challenge has a step after the stored one. */
  lemma ReplaylessChallenge(gen: Generator, s: State, q: Request)
    requires Replayless(gen, s) && q.Challenge?
    ensures Replayless(gen, Apply(gen, s, q))
  {
    var r := ChallengeEffect(gen, s.account, q.code, q.at, q.faults).1;
    var s' := Apply(gen, s, q);
    assert s'.account.secret == s.account.secret;
    if r.Ok? {
      assert s'.accepted == s.accepted + [Accept(q.code, q.at)] && s'.account.lastStep == Some(StepOf(q.at));
    } else {
      assert s'.accepted == s.accepted && s'.account.lastStep == s.account.lastStep;
    }
  }

  lemma ReplaylessStep(gen: Generator, s: State, q: Request)
    requires Replayless(gen, s)
    ensures Replayless(gen, Apply(gen, s, q))
  {
    if q.Challenge? { ReplaylessChallenge(gen, s, q); }
  }

  lemma {:induction false} AlwaysReplayless(gen: Generator, start: int, qs: seq<Request>)
    ensures Replayless(gen, After(gen, start, qs))
  {
    if qs != [] {
      AlwaysReplayless(gen, start, qs[..|qs| - 1]);
      ReplaylessStep(gen, After(gen, start, qs[..|qs| - 1]), qs[|qs| - 1]);
    }
  }

  /** Between an activation and the next reset no two challenges succeed in the same 30-second step, and steps increase. */
  lemma AcceptedStepsIncrease(gen: Generator, start: int, qs: seq<Request>, i: nat, j: nat)
    requires i < j < |After(gen, start, qs).accepted|
    ensures StepOf(After(gen, start, qs).accepted[i].at) < StepOf(After(gen, start, qs).accepted[j].at)
  {
    AlwaysReplayless(gen, start, qs);
  }

  // ----- how often one code works -----

  function CodeCount(acc: seq<Accept>, code: Code): nat {
    if acc == [] then 0 else CodeCount(acc[..|acc| - 1], code) + if acc[|acc| - 1].code == code then 1 else 0
  }

  ghost predicate UsedIn(acc: seq<Accept>, code: Code, step: int) {
    exists i | 0 <= i < |acc| :: acc[i].code == code && StepOf(acc[i].at) == step
  }

  /** With one success per step, the successes of a code are counted by their steps. */
  lemma {:induction false} CountIsSteps(acc: seq<Accept>, code: Code) returns (steps: set<int>)
    requires forall i, j | 0 <= i < j < |acc| :: StepOf(acc[i].at) < StepOf(acc[j].at)
    ensures |steps| == CodeCount(acc, code)
    ensures forall m | m in steps :: UsedIn(acc, code, m)
  {
    steps := {};
    if acc != [] {
      var front, last := acc[..|acc| - 1], acc[|acc| - 1];
      steps := CountIsSteps(front, code);
      forall m | m in steps ensures UsedIn(acc, code, m) && m < StepOf(last.at) {
        var i :| 0 <= i < |front| && front[i].code == code && StepOf(front[i].at) == m;
        assert acc[i] == front[i];
      }
      if last.code == code {
        assert UsedIn(acc, code, StepOf(last.at));
        steps := steps + {StepOf(last.at)};
      }
    }
  }

  predicate Near(targets: set<int>, m: int) { m - 1 in targets || m in targets || m + 1 in targets }

  /** A set in which every element is within one of a target is at most three times as large as the targets. */
  lemma {:induction false} ThreePerTarget(steps: set<int>, targets: set<int>)
    requires forall m | m in steps :: Near(targets, m)
    ensures |steps| <= 3 * |targets|
  {
    if steps != {} {
      var m := SomeElement(steps);
      var t := if m in targets then m else if m - 1 in targets then m - 1 else m + 1;
      var near := {t - 1, t, t + 1};
      ThreePerTarget(steps - near, targets - {t});
      SetSize(steps, near);
    }
  }

  lemma SetSize(x: set<int>, y: set<int>)
    ensures |x| <= |x - y| + |y|
  {
    assert x == (x - y) + (x * y);
    assert y == (y - x) + (x * y);
  }

  /** The steps from `lo` to `hi` for which the generator yields `code`. */
  function CodeSteps(gen: Generator, secret: Secret, code: Code, lo: int, hi: int): set<int> {
    set t | lo <= t <= hi && gen(secret, t) == code
  }

  /** Every step that the skew allows for `step` and that has the code is a target. */
  ghost predicate Covers(gen: Generator, secret: Secret, code: Code, step: int, targets: set<int>) {
    forall t | step - TOTP_SKEW <= t <= step + TOTP_SKEW && gen(secret, t) == code :: t in targets
  }

  lemma MatchIsNear(gen: Generator, secret: Secret, code: Code, step: int, targets: set<int>)
    requires CodeMatches(gen, secret, code, step) && Covers(gen, secret, code, step, targets)
    ensures Near(targets, step)
  {
    var t :| step - TOTP_SKEW <= t <= step + TOTP_SKEW && gen(secret, t) == code;
    assert t in targets;
  }

  /** Before the next reset a code succeeds at most three times for each step that has it near an accepted step. */
  lemma UsesPerStep(gen: Generator, start: int, qs: seq<Request>, secret: Secret, code: Code, targets: set<int>)
    requires After(gen, start, qs).account.secret == Some(secret)
    requires var acc := After(gen, start, qs).accepted;
             forall i | 0 <= i < |acc| :: Covers(gen, secret, code, StepOf(acc[i].at), targets)
    ensures CodeCount(After(gen, start, qs).accepted, code) <= 3 * |targets|
  {
    AlwaysReplayless(gen, start, qs);
    var acc := After(gen, start, qs).accepted;
    var steps := CountIsSteps(acc, code);
    forall m | m in steps ensures Near(targets, m) {
      var i :| 0 <= i < |acc| && acc[i].code == code && StepOf(acc[i].at) == m;
      MatchIsNear(gen, secret, code, m, targets);
    }
    ThreePerTarget(steps, targets);
  }

  /** Over any range of steps that covers the accepted ones and their skew: three uses for each step that has the code. */
  lemma CodeUsesInRange(gen: Generator, start: int, qs: seq<Request>, secret: Secret, code: Code, lo: int, hi: int)
    requires After(gen, start, qs).account.secret == Some(secret)
    requires var acc := After(gen, start, qs).accepted;
             forall i | 0 <= i < |acc| :: lo < StepOf(acc[i].at) < hi
    ensures CodeCount(After(gen, start, qs).accepted, code) <= 3 * |CodeSteps(gen, secret, code, lo, hi)|
  {
    UsesPerStep(gen, start, qs, secret, code, CodeSteps(gen, secret, code, lo, hi));
  }

  /** A code that no other step near an accepted one shares succeeds at most three times before the next reset. */
  lemma CodeWorksAtMostThrice(gen: Generator, start: int, qs: seq<Request>, secret: Secret, k: int)
    requires After(gen, start, qs).account.secret == Some(secret)
    requires var acc := After(gen, start, qs).accepted;
             forall i, t | 0 <= i < |acc| && StepOf(acc[i].at) - 1 <= t <= StepOf(acc[i].at) + 1 && gen(secret, t) == gen(secret, k) :: t == k
    ensures CodeCount(After(gen, start, qs).accepted, gen(secret, k)) <= 3
  {
    var acc := After(gen, start, qs).accepted;
    forall i | 0 <= i < |acc| ensures Covers(gen, secret, gen(secret, k), StepOf(acc[i].at), {k}) {
    }
    UsesPerStep(gen, start, qs, secret, gen(secret, k), {k});
  }

  lemma AfterSnoc(gen: Generator, start: int, qs: seq<Request>, q: Request)
    ensures After(gen, start, qs + [q]) == Apply(gen, After(gen, start, qs), q)
  {
    assert (qs + [q])[..|qs + [q]| - 1] == qs;
  }

  /** A first code of its step on an unlocked account is accepted. */
  lemma ChallengeAccepted(gen: Generator, s: State, code: Code, now: int, step: int)
    requires |s.account.attempts| < MFA_MAX_ATTEMPTS && !s.account.locked && s.account.secret.Some?
    requires s.account.lastStep.None? || s.account.lastStep.value < StepOf(now)
    requires StepOf(now) - TOTP_SKEW <= step <= StepOf(now) + TOTP_SKEW && gen(s.account.secret.value, step) == code
    ensures Apply(gen, s, Challenge(code, now, NO_FAULTS)) ==
            State(s.account.(attempts := s.account.attempts + [LogLimiter.Attempt(ACTION, now)], lastStep := Some(StepOf(now))),
                  now, s.accepted + [Accept(code, now)])
  {
    CountAtMostLength(s.account.attempts, ACTION, now - MFA_WINDOW_SECS);
    assert CodeMatches(gen, s.account.secret.value, code, StepOf(now));
  }

  lemma {:induction false} CountAtMostLength(log: seq<LogLimiter.Attempt>, key: string, since: int)
    ensures LogLimiter.CountSince(log, key, since) <= |log|
  {
    if log != [] { CountAtMostLength(log[..|log| - 1], key, since); }
  }

  /** Successes with `code` at the start of `n` consecutive steps. */
  function Consecutive(code: Code, step: int, n: nat): seq<Accept> {
    if n == 0 then [] else Consecutive(code, step, n - 1) + [Accept(code, Opening(step + n - 1))]
  }

  lemma {:induction false} CountConsecutive(code: Code, step: int, n: nat)
    ensures CodeCount(Consecutive(code, step, n), code) == n
  {
    if n > 0 {
      CountConsecutive(code, step, n - 1);
      var acc := Consecutive(code, step, n);
      assert acc[..|acc| - 1] == Consecutive(code, step, n - 1);
    }
  }

  ghost predicate InOrderUntil(start: int, qs: seq<Request>, t: int) {
    InOrder(start, qs) && (forall i | 0 <= i < |qs| :: qs[i].at <= t) && start <= t
  }

  lemma InOrderSnoc(start: int, qs: seq<Request>, q: Request, t: int)
    requires InOrderUntil(start, qs, q.at) && q.at <= t
    ensures InOrderUntil(start, qs + [q], t)
  {
  }

  /** By the start of step `t`, an unlocked account has made `n` attempts, all successful, with the code of step k. */
  ghost predicate Used(gen: Generator, start: int, qs: seq<Request>, secret: Secret, k: int, n: nat, t: int) {
    var s := After(gen, start, qs);
    && InOrderUntil(start, qs, Opening(t))
    && |s.account.attempts| == n && !s.account.locked && s.account.secret == Some(secret)
    && (s.account.lastStep.None? || s.account.lastStep.value < t)
    && s.accepted == Consecutive(gen(secret, k), t - n, n)
  }

  /** Setup and verification in step t with that step's own code. */
  lemma Activated(gen: Generator, secret: Secret, k: int, t: int) returns (qs: seq<Request>)
    ensures Used(gen, Opening(t), qs, secret, k, 0, t + 1)
  {
    var start, code := Opening(t), gen(secret, t);
    AfterSnoc(gen, start, [], Setup(secret, start));
    qs := [] + [Setup(secret, start)];
    AfterSnoc(gen, start, qs, VerifySetup(code, start));
    qs := qs + [VerifySetup(code, start)];
    assert CodeMatches(gen, secret, code, t);
    assert After(gen, start, qs) == State(NEW_ACCOUNT.(enabled := true, secret := Some(secret)), start, []);
  }

  /** At the start of step `t` the code of step `k`, at most one step away, is accepted once more. */
  lemma OnceMore(gen: Generator, start: int, qs: seq<Request>, secret: Secret, k: int, n: nat, t: int) returns (qs': seq<Request>)
    requires n < MFA_MAX_ATTEMPTS && k - TOTP_SKEW <= t <= k + TOTP_SKEW && Used(gen, start, qs, secret, k, n, t)
    ensures Used(gen, start, qs', secret, k, n + 1, t + 1)
  {
    var s, q := After(gen, start, qs), Challenge(gen(secret, k), Opening(t), NO_FAULTS);
    AfterSnoc(gen, start, qs, q);
    ChallengeAccepted(gen, s, gen(secret, k), Opening(t), k);
    InOrderSnoc(start, qs, q, Opening(t + 1));
    qs' := qs + [q];
  }

  /**
   Three is attained for every generator, secret and step: replay protection
   compares steps, so the skew lets each code succeed in the steps k - 1, k and k + 1.
   */
  lemma SameCodeThrice(gen: Generator, secret: Secret, k: int) returns (qs: seq<Request>)
    ensures InOrder(Opening(k - 2), qs)
    ensures After(gen, Opening(k - 2), qs).account.secret == Some(secret)
    ensures After(gen, Opening(k - 2), qs).accepted == Consecutive(gen(secret, k), k - 1, 3)
    ensures CodeCount(After(gen, Opening(k - 2), qs).accepted, gen(secret, k)) == 3
  {
    qs := ThreeUses(gen, secret, k, Opening(k - 2));
    CountConsecutive(gen(secret, k), k - 1, 3);
  }

  lemma ThreeUses(gen: Generator, secret: Secret, k: int, start: int) returns (qs: seq<Request>)
    requires start == Opening(k - 2)
    ensures Used(gen, start, qs, secret, k, 3, k + 2)
  {
    qs := Activated(gen, secret, k, k - 2);
    qs := OnceMore(gen, start, qs, secret, k, 0, k - 1);
    qs := OnceMore(gen, start, qs, secret, k, 1, k);
    qs := OnceMore(gen, start, qs, secret, k, 2, k + 1);
  }

  // ----- quiet time unlocks -----

  ghost predicate Dated(s: State) {
    && (forall i | 0 <= i < |s.account.attempts| :: s.account.attempts[i].at <= s.last)
    && (s.account.locked ==> s.account.lockedAt.Some? && s.account.lockedAt.value <= s.last)
  }

  lemma {:induction false} AlwaysDated(gen: Generator, start: int, qs: seq<Request>)
    requires InOrder(start, qs)
    ensures Dated(After(gen, start, qs))
    ensures After(gen, start, qs).last == if qs == [] then start else qs[|qs| - 1].at
  {
    if qs != [] {
      var n := |qs| - 1;
      AlwaysDated(gen, start, qs[..n]);
      DatedStep(gen, After(gen, start, qs[..n]), qs[n]);
    }
  }

  lemma DatedStep(gen: Generator, s: State, q: Request)
    requires Dated(s) && s.last <= q.at
    ensures Dated(Apply(gen, s, q)) && Apply(gen, s, q).last == q.at
  {
  }

  lemma {:induction false} NoneSince(log: seq<LogLimiter.Attempt>, key: string, since: int)
    requires forall i | 0 <= i < |log| :: log[i].at < since
    ensures LogLimiter.CountSince(log, key, since) == 0
  {
    if log != [] {
      NoneSince(log[..|log| - 1], key, since);
    }
  }

  lemma QuietAccount(gen: Generator, s: State, code: Code, now: int, f: Faults)
    requires Dated(s) && s.last + 900 < now
    ensures ChallengeEffect(gen, s.account, code, now, f).1 != Err(RateLimited)
    ensures ChallengeEffect(gen, s.account, code, now, f).1 != Err(Locked)
  {
    NoneSince(s.account.attempts, ACTION, now - MFA_WINDOW_SECS);
  }

  /** After more than 900 seconds without requests, a challenge is neither rate limited nor locked out. */
  lemma QuietChallengePasses(gen: Generator, start: int, qs: seq<Request>, code: Code, now: int, f: Faults)
    requires InOrder(start, qs) && After(gen, start, qs).last + 900 < now
    ensures ChallengeEffect(gen, After(gen, start, qs).account, code, now, f).1 != Err(RateLimited)
    ensures ChallengeEffect(gen, After(gen, start, qs).account, code, now, f).1 != Err(Locked)
  {
    AlwaysDated(gen, start, qs);
    QuietAccount(gen, After(gen, start, qs), code, now, f);
  }
}
