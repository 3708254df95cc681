/**
 The limiters that count rows of an attempts table: `check_rate_limit` (MFA) and
 the login lockout.  Both count first and append later, so requests that are
 between the two steps are not seen by each other.
 */
module LogLimiter {
  import opened Wrappers

  datatype Attempt = Attempt(key: string, at: int)

  datatype Refusal = Unavailable | TooMany | WrongPassword | BadRecord | Disabled

  /** What `login` looks at in the user record, and whether the password fits its hash. */
  datatype LoginUser = LoginUser(hasHash: bool, disabled: bool, passwordFits: bool)

  const LOCKOUT_MAX_ATTEMPTS := 5
  const LOCKOUT_WINDOW_SECS := 15 * 60
  const LOCKOUT_QUERY_LIMIT := 10

  /** Rows of the key dated from `a` to `b`, both included. */
  function CountBetween(log: seq<Attempt>, key: string, a: int, b: int): nat {
    if log == [] then 0
    else CountBetween(log[..|log| - 1], key, a, b)
         + if log[|log| - 1].key == key && a <= log[|log| - 1].at <= b then 1 else 0
  }

  /** Rows of the key dated `a` or later. */
  function CountSince(log: seq<Attempt>, key: string, a: int): nat {
    if log == [] then 0
    else CountSince(log[..|log| - 1], key, a) + if log[|log| - 1].key == key && a <= log[|log| - 1].at then 1 else 0
  }

  /** The positions of the rows of the key dated `a` or later. */
  ghost function Rows(log: seq<Attempt>, key: string, a: int): set<int> {
    set i | 0 <= i < |log| && log[i].key == key && a <= log[i].at
  }

  /** Both counts are the number of positions with such a row. */
  lemma {:induction false} CountIsCardinality(log: seq<Attempt>, key: string, a: int)
    ensures CountSince(log, key, a) == |Rows(log, key, a)|
  {
    if log != [] {
      var n := |log| - 1;
      CountIsCardinality(log[..n], key, a);
      assert Rows(log, key, a) == Rows(log[..n], key, a) + if log[n].key == key && a <= log[n].at then {n} else {};
    }
  }

  lemma {:induction false} CountBetweenIsCardinality(log: seq<Attempt>, key: string, a: int, b: int)
    ensures CountBetween(log, key, a, b) == |set i | 0 <= i < |log| && log[i].key == key && a <= log[i].at <= b|
  {
    if log != [] {
      var n := |log| - 1;
      CountBetweenIsCardinality(log[..n], key, a, b);
      var front := set i | 0 <= i < |log[..n]| && log[..n][i].key == key && a <= log[..n][i].at <= b;
      var all := set i | 0 <= i < |log| && log[i].key == key && a <= log[i].at <= b;
      assert all == front + if log[n].key == key && a <= log[n].at <= b then {n} else {};
    }
  }

  class AttemptLog {
    var log: seq<Attempt>

    constructor ()
      ensures log == []
    {
      log := [];
    }

    /**
     `check_rate_limit` when nothing comes between its count and its insert.  A
     failed count is an error, a failed insert is ignored.
     */
    method CheckRateLimit(key: string, max: nat, window: nat, now: int, countFails: bool, insertFails: bool)
      returns (r: Result<(), Refusal>)
      modifies this
      ensures r == Err(Unavailable) <==> countFails
      ensures r == Err(TooMany) <==> !countFails && |Rows(old(log), key, now - window)| >= max
      ensures r.Err? ==> r.error in {Unavailable, TooMany}
      ensures r.Ok? && !insertFails ==> log == old(log) + [Attempt(key, now)]
      ensures r.Err? || insertFails ==> log == old(log)
    {
      CountIsCardinality(log, key, now - window);
      if countFails { return Err(Unavailable); }
      if CountSince(log, key, now - window) >= max { return Err(TooMany); }
      if !insertFails { log := log + [Attempt(key, now)]; }
      r := Ok(());
    }

    /**
     `check_account_lockout`: the query returns at most ten rows, and the
     decision is still the one the full count would give.  A failed query counts
     as no rows.
     */
    method CheckLockout(email: string, now: int, testMode: bool, queryFails: bool) returns (ok: bool)
      ensures ok <==> testMode || queryFails || |Rows(log, email, now - 900)| < 5
    {
      CountIsCardinality(log, email, now - LOCKOUT_WINDOW_SECS);
      if testMode { return true; }
      var count := if queryFails then 0 else Min(LOCKOUT_QUERY_LIMIT, CountSince(log, email, now - LOCKOUT_WINDOW_SECS));
      ok := count < LOCKOUT_MAX_ATTEMPTS;
    }

    /** A failed insert is ignored; otherwise every window that holds `now` counts one more failure of this email only. */
    method RecordFailure(email: string, now: int, insertFails: bool)
      modifies this
      ensures insertFails ==> log == old(log)
      ensures !insertFails ==> log == old(log) + [Attempt(email, now)]
      ensures forall key, a :: CountSince(log, key, a) ==
                CountSince(old(log), key, a) + if !insertFails && key == email && a <= now then 1 else 0
    {
      if !insertFails {
        assert (log + [Attempt(email, now)])[..|log|] == log;
        log := log + [Attempt(email, now)];
      }
    }

    /**
     The password login of one email, uninterrupted: lockout, user lookup, record
     and disabled flag, then the password.  An unknown user and a wrong password
     are the failures that get recorded.
     */
    method Login(email: string, user: Option<LoginUser>, checkedAt: int, failedAt: int, testMode: bool, queryFails: bool, insertFails: bool)
      returns (r: Result<(), Refusal>)
      modifies this
      ensures r == Err(TooMany) <==>
                !testMode && !queryFails && |Rows(old(log), email, checkedAt - 900)| >= 5
      ensures r != Err(TooMany) ==>
                && (r == Err(WrongPassword) <==> user.None? || (user.value.hasHash && !user.value.disabled && !user.value.passwordFits))
                && (r == Err(BadRecord) <==> user.Some? && !user.value.hasHash)
                && (r == Err(Disabled) <==> user.Some? && user.value.hasHash && user.value.disabled)
                && (r.Ok? <==> user == Some(LoginUser(true, false, true)))
      ensures r == Err(WrongPassword) && !insertFails ==> log == old(log) + [Attempt(email, failedAt)]
      ensures r != Err(WrongPassword) || insertFails ==> log == old(log)
    {
      var ok := CheckLockout(email, checkedAt, testMode, queryFails);
      if !ok { return Err(TooMany); }
      if user.None? {
        RecordFailure(email, failedAt, insertFails);
        return Err(WrongPassword);
      }
      if !user.value.hasHash { return Err(BadRecord); }
      if user.value.disabled { return Err(Disabled); }
      if !user.value.passwordFits {
        RecordFailure(email, failedAt, insertFails);
        return Err(WrongPassword);
      }
      r := Ok(());
    }
  }

  // ----- all interleavings of check and log -----

  datatype Limits = Limits(max: nat, window: nat)

  /** A request that may still append its row; `blind` if it got past a count that failed or was skipped. */
  datatype Flight = Flight(key: string, readAt: int, blind: bool)

  /** `unseen` repeats the rows that blind requests have logged. */
  datatype State = State(now: int, log: seq<Attempt>, unseen: seq<Attempt>, flights: map<nat, Flight>)

  datatype Event =
    | Tick(now: int)
    | Check(r: nat, key: string, readAt: int, blind: bool)   // blind: the lockout query failed, or test mode
    | Record(r: nat, at: int)   // the row may carry the check's clock value (MFA) or a later one (lockout)
    | Leave(r: nat)             // no row: the password was right, or the insert failed

  predicate Enabled(s: State, e: Event) {
    match e
    case Tick(t) => s.now <= t
    case Check(r, _, readAt, _) => r !in s.flights && readAt <= s.now
    case Record(r, at) => r in s.flights && s.flights[r].readAt <= at <= s.now
    case Leave(r) => r in s.flights
  }

  function Apply(l: Limits, s: State, e: Event): State
    requires Enabled(s, e)
  {
    match e
    case Tick(t) => s.(now := t)
    case Check(r, key, readAt, blind) =>
      if !blind && CountSince(s.log, key, readAt - l.window) >= l.max then s
      else s.(flights := s.flights[r := Flight(key, readAt, blind)])
    case Record(r, at) =>
      var row := Attempt(s.flights[r].key, at);
      s.(log := s.log + [row], unseen := if s.flights[r].blind then s.unseen + [row] else s.unseen, flights := s.flights - {r})
    case Leave(r) => s.(flights := s.flights - {r})
  }

  /** A request gets past its check exactly when it is blind or fewer than `max` rows of its key lie in its window. */
  lemma CheckDecides(l: Limits, s: State, r: nat, key: string, readAt: int, blind: bool)
    requires Enabled(s, Check(r, key, readAt, blind))
    ensures var s' := Apply(l, s, Check(r, key, readAt, blind));
            && s'.log == s.log && s'.unseen == s.unseen && s'.now == s.now
            && s'.flights == if blind || |Rows(s.log, key, readAt - l.window)| < l.max
                             then s.flights[r := Flight(key, readAt, blind)] else s.flights
  {
    CountIsCardinality(s.log, key, readAt - l.window);
  }

  ghost predicate Steps(l: Limits, s: State, e: Event, s': State) {
    Enabled(s, e) && s' == Apply(l, s, e)
  }

  /** A run from an empty table in which at most `c` counted requests for the key are ever between check and log. */
  ghost predicate Run(l: Limits, c: nat, key: string, tr: seq<State>, evs: seq<Event>) {
    && |tr| == |evs| + 1
    && tr[0].log == [] && tr[0].unseen == [] && tr[0].flights == map[]
    && (forall i :: 0 <= i < |evs| ==> Steps(l, tr[i], evs[i], tr[i + 1]))
    && (forall i :: 0 <= i < |tr| ==> |InFlight(tr[i], key)| <= c)
  }

  function InFlight(s: State, key: string): set<nat> {
    set r | r in s.flights && s.flights[r].key == key && !s.flights[r].blind
  }

  /** Those of them that may still log a row dated `b` or earlier. */
  function InFlightBy(s: State, key: string, b: int): set<nat> {
    set r | r in s.flights && s.flights[r].key == key && !s.flights[r].blind && s.flights[r].readAt <= b
  }

  /** Rows in the window, and counted requests that may still add one, against the limit, the overlap and the blind rows. */
  ghost predicate WithinBudget(l: Limits, c: nat, s: State, key: string, a: int) {
    CountBetween(s.log, key, a, a + l.window) + |InFlightBy(s, key, a + l.window)|
    <= l.max - 1 + c + CountBetween(s.unseen, key, a, a + l.window)
  }

  lemma {:induction false} BetweenAtMostSince(log: seq<Attempt>, key: string, a: int, b: int, since: int)
    requires since <= a
    ensures CountBetween(log, key, a, b) <= CountSince(log, key, since)
  {
    if log != [] {
      BetweenAtMostSince(log[..|log| - 1], key, a, b, since);
    }
  }

  lemma SomeInFlight(s: State, key: string, b: int)
    ensures |InFlightBy(s, key, b)| <= |InFlight(s, key)|
  {
    var f, g := InFlightBy(s, key, b), InFlight(s, key);
    assert g == f + (g - f);
  }

  /** A check passed in the window means few rows in it. */
  lemma CheckKeepsBudget(l: Limits, c: nat, s: State, e: Event, s': State, key: string, a: int)
    requires l.max > 0 && Steps(l, s, e, s') && e.Check? && |InFlight(s', key)| <= c
    requires WithinBudget(l, c, s, key, a)
    ensures WithinBudget(l, c, s', key, a)
  {
    var b := a + l.window;
    assert s'.log == s.log && s'.unseen == s.unseen;
    if !e.blind && CountSince(s.log, e.key, e.readAt - l.window) < l.max && e.key == key && e.readAt <= b {
      BetweenAtMostSince(s.log, key, a, b, e.readAt - l.window);
      SomeInFlight(s', key, b);
    } else {
      assert InFlightBy(s', key, b) == InFlightBy(s, key, b);
    }
  }

  lemma CountSnoc(log: seq<Attempt>, row: Attempt, key: string, a: int, b: int)
    ensures CountBetween(log + [row], key, a, b) == CountBetween(log, key, a, b) + if row.key == key && a <= row.at <= b then 1 else 0
  {
    assert (log + [row])[..|log|] == log;
  }

  lemma Landed(l: Limits, s: State, e: Event, s': State, key: string, b: int)
    requires Steps(l, s, e, s') && e.Record?
    ensures |InFlightBy(s', key, b)| == |InFlightBy(s, key, b)| - if e.r in InFlightBy(s, key, b) then 1 else 0
  {
    assert InFlightBy(s', key, b) == InFlightBy(s, key, b) - {e.r};
  }

  /** A row written is a flight landed. */
  lemma RecordKeepsBudget(l: Limits, c: nat, s: State, e: Event, s': State, key: string, a: int)
    requires Steps(l, s, e, s') && e.Record?
    requires WithinBudget(l, c, s, key, a)
    ensures WithinBudget(l, c, s', key, a)
  {
    var row := Attempt(s.flights[e.r].key, e.at);
    CountSnoc(s.log, row, key, a, a + l.window);
    CountSnoc(s.unseen, row, key, a, a + l.window);
    Landed(l, s, e, s', key, a + l.window);
  }

  lemma StepKeepsBudget(l: Limits, c: nat, s: State, e: Event, s': State, key: string, a: int)
    requires l.max > 0 && Steps(l, s, e, s') && |InFlight(s', key)| <= c
    requires WithinBudget(l, c, s, key, a)
    ensures WithinBudget(l, c, s', key, a)
  {
    match e
    case Tick(_) => assert InFlightBy(s', key, a + l.window) == InFlightBy(s, key, a + l.window);
    case Check(_, _, _, _) => CheckKeepsBudget(l, c, s, e, s', key, a);
    case Record(_, _) => RecordKeepsBudget(l, c, s, e, s', key, a);
    case Leave(r) => assert InFlightBy(s', key, a + l.window) == InFlightBy(s, key, a + l.window) - {r};
  }

  lemma {:induction false} AlwaysWithinBudget(l: Limits, c: nat, key: string, tr: seq<State>, evs: seq<Event>, n: nat, a: int)
    requires l.max > 0 && Run(l, c, key, tr, evs) && n <= |evs|
    ensures WithinBudget(l, c, tr[n], key, a)
  {
    if n == 0 {
      assert InFlightBy(tr[0], key, a + l.window) == {};
    } else {
      AlwaysWithinBudget(l, c, key, tr, evs, n - 1, a);
      assert Steps(l, tr[n - 1], evs[n - 1], tr[n]) && |InFlight(tr[n], key)| <= c;
      StepKeepsBudget(l, c, tr[n - 1], evs[n - 1], tr[n], key, a);
    }
  }

  /**
   At most max - 1 + c rows are logged in any closed window, whatever the
   interleaving, besides those of requests that were let through uncounted.
   */
  lemma AttemptsPerWindow(l: Limits, c: nat, key: string, tr: seq<State>, evs: seq<Event>, n: nat, a: int)
    requires l.max > 0 && Run(l, c, key, tr, evs) && n <= |evs|
    ensures CountBetween(tr[n].log, key, a, a + l.window) <= l.max - 1 + c + CountBetween(tr[n].unseen, key, a, a + l.window)
  {
    AlwaysWithinBudget(l, c, key, tr, evs, n, a);
  }

  /** For the lockout: at most 4 + c counted failures of one email in any 900 seconds; 5 when requests do not overlap. */
  lemma LockoutPerWindow(c: nat, email: string, tr: seq<State>, evs: seq<Event>, n: nat, a: int)
    requires Run(Limits(LOCKOUT_MAX_ATTEMPTS, LOCKOUT_WINDOW_SECS), c, email, tr, evs) && n <= |evs|
    ensures CountBetween(tr[n].log, email, a, a + 900) <= 4 + c + CountBetween(tr[n].unseen, email, a, a + 900)
  {
    AttemptsPerWindow(Limits(LOCKOUT_MAX_ATTEMPTS, LOCKOUT_WINDOW_SECS), c, email, tr, evs, n, a);
  }

  /** Nothing is uncounted in a run without blind checks. */
  lemma {:induction false} NothingUnseen(l: Limits, c: nat, key: string, tr: seq<State>, evs: seq<Event>, n: nat)
    requires Run(l, c, key, tr, evs) && n <= |evs|
    requires forall i | 0 <= i < |evs| && evs[i].Check? :: !evs[i].blind
    ensures tr[n].unseen == [] && forall r | r in tr[n].flights :: !tr[n].flights[r].blind
  {
    if n > 0 {
      NothingUnseen(l, c, key, tr, evs, n - 1);
      assert Steps(l, tr[n - 1], evs[n - 1], tr[n]);
    }
  }

  // ----- the bound is attained -----

  lemma Extend(l: Limits, c: nat, key: string, tr: seq<State>, evs: seq<Event>, e: Event) returns (tr': seq<State>, evs': seq<Event>)
    requires Run(l, c, key, tr, evs) && Enabled(tr[|evs|], e) && |InFlight(Apply(l, tr[|evs|], e), key)| <= c
    ensures Run(l, c, key, tr', evs') && tr'[|evs'|] == Apply(l, tr[|evs|], e)
  {
    evs', tr' := evs + [e], tr + [Apply(l, tr[|evs|], e)];
    forall i | 0 <= i < |evs'|
      ensures Steps(l, tr'[i], evs'[i], tr'[i + 1])
    {
      if i < |evs| { assert Steps(l, tr[i], evs[i], tr[i + 1]); }
    }
  }

  /** At time 0: `rows` rows of the key, `n` counted requests in flight and nothing else. */
  ghost predicate At(s: State, key: string, rows: nat, n: nat) {
    && s.now == 0 && s.unseen == [] && |s.log| == rows
    && (forall i | 0 <= i < |s.log| :: s.log[i] == Attempt(key, 0))
    && s.flights.Keys == Below(n) && (forall r | r in s.flights :: s.flights[r] == Flight(key, 0, false))
  }

  lemma {:induction false} AllCount(log: seq<Attempt>, key: string, a: int, b: int)
    requires a <= 0 <= b && forall i | 0 <= i < |log| :: log[i] == Attempt(key, 0)
    ensures CountSince(log, key, a) == |log| && CountBetween(log, key, a, b) == |log|
  {
    if log != [] { AllCount(log[..|log| - 1], key, a, b); }
  }

  lemma AtInFlight(s: State, key: string, rows: nat, n: nat)
    requires At(s, key, rows, n)
    ensures |InFlight(s, key)| == n
  {
    assert InFlight(s, key) == s.flights.Keys;
  }

  /** Fewer than `max` rows: one more request takes off. */
  lemma TakeOff(l: Limits, s: State, key: string, rows: nat, n: nat)
    requires At(s, key, rows, n) && rows < l.max
    ensures Enabled(s, Check(n, key, 0, false)) && At(Apply(l, s, Check(n, key, 0, false)), key, rows, n + 1)
    ensures |InFlight(Apply(l, s, Check(n, key, 0, false)), key)| == n + 1
  {
    AllCount(s.log, key, 0 - l.window, 0);
    var s' := Apply(l, s, Check(n, key, 0, false));
    assert s' == s.(flights := s.flights[n := Flight(key, 0, false)]);
    MoreFlights(s, s', key, rows, n);
    AtInFlight(s', key, rows, n + 1);
  }

  lemma MoreFlights(s: State, s': State, key: string, rows: nat, n: nat)
    requires At(s, key, rows, n) && s' == s.(flights := s.flights[n := Flight(key, 0, false)])
    ensures At(s', key, rows, n + 1)
  {
    assert s'.flights.Keys == Below(n + 1);
  }

  lemma Land(l: Limits, s: State, key: string, rows: nat, n: nat)
    requires At(s, key, rows, n) && n > 0
    ensures Enabled(s, Record(n - 1, 0)) && At(Apply(l, s, Record(n - 1, 0)), key, rows + 1, n - 1)
    ensures |InFlight(Apply(l, s, Record(n - 1, 0)), key)| == n - 1
  {
    var s' := Apply(l, s, Record(n - 1, 0));
    assert s'.flights.Keys == Below(n - 1);
    AtInFlight(s', key, rows + 1, n - 1);
  }

  /** One request after the other, up to one row below the limit. */
  lemma {:induction false} OneByOne(l: Limits, c: nat, key: string, rows: nat) returns (tr: seq<State>, evs: seq<Event>)
    requires c > 0 && rows < l.max
    ensures Run(l, c, key, tr, evs) && At(tr[|evs|], key, rows, 0)
  {
    if rows == 0 {
      tr, evs := [State(0, [], [], map[])], [];
      AtInFlight(tr[0], key, 0, 0);
    } else {
      tr, evs := OneByOne(l, c, key, rows - 1);
      TakeOff(l, tr[|evs|], key, rows - 1, 0);
      tr, evs := Extend(l, c, key, tr, evs, Check(0, key, 0, false));
      Land(l, tr[|evs|], key, rows - 1, 1);
      tr, evs := Extend(l, c, key, tr, evs, Record(0, 0));
    }
  }

  /** Then `n` requests at once. */
  lemma {:induction false} AllTakeOff(l: Limits, c: nat, key: string, rows: nat, n: nat) returns (tr: seq<State>, evs: seq<Event>)
    requires rows < l.max && c > 0 && n <= c
    ensures Run(l, c, key, tr, evs) && At(tr[|evs|], key, rows, n)
  {
    if n == 0 {
      tr, evs := OneByOne(l, c, key, rows);
    } else {
      tr, evs := AllTakeOff(l, c, key, rows, n - 1);
      TakeOff(l, tr[|evs|], key, rows, n - 1);
      tr, evs := Extend(l, c, key, tr, evs, Check(n - 1, key, 0, false));
    }
  }

  lemma {:induction false} AllLand(l: Limits, c: nat, key: string, tr: seq<State>, evs: seq<Event>, rows: nat, n: nat)
    returns (tr': seq<State>, evs': seq<Event>)
    requires Run(l, c, key, tr, evs) && n <= c && At(tr[|evs|], key, rows, n)
    ensures Run(l, c, key, tr', evs') && At(tr'[|evs'|], key, rows + n, 0)
    decreases n
  {
    tr', evs' := tr, evs;
    if n > 0 {
      Land(l, tr[|evs|], key, rows, n);
      tr', evs' := Extend(l, c, key, tr, evs, Record(n - 1, 0));
      tr', evs' := AllLand(l, c, key, tr', evs', rows + 1, n - 1);
    }
  }

  /** For every limit, window and overlap `c` there is a run with max - 1 + c rows in one window. */
  lemma BudgetIsAttained(l: Limits, c: nat, key: string) returns (tr: seq<State>, evs: seq<Event>)
    requires l.max > 0 && c > 0
    ensures Run(l, c, key, tr, evs) && tr[|evs|].unseen == []
    ensures CountBetween(tr[|evs|].log, key, 0, l.window) == l.max - 1 + c
  {
    tr, evs := AllTakeOff(l, c, key, l.max - 1, c);
    tr, evs := AllLand(l, c, key, tr, evs, l.max - 1, c);
    AllCount(tr[|evs|].log, key, 0, l.window);
  }
}
